/** Choosing a certificate for a TLS server name.  The patterns of a certificate pass through a Go map, so
    they come out in any order; the choice does not depend on it. */
module Certificates {
  import opened Options
  import opened Text

  datatype Leaf = Leaf(dnsNames: seq<string>, commonName: string)

  function CleanHost(value: string): string {
    var host := ToLower(Trim(value));
    host[..Find(host, ':')]
  }

  /** A name means the same with blanks around it, in any case, and with a port behind it. */
  lemma CleanHostIs(a: string, host: string, port: string, b: string)
    requires IsPadding(a) && IsPadding(b) && ':' !in host
    requires host == "" || (!IsSpace(host[0]) && !IsSpace(host[|host| - 1]))
    requires port == "" || (port[0] == ':' && !IsSpace(port[|port| - 1]))
    ensures CleanHost(a + (host + port + b)) == ToLower(host)
  {
    hide IsSpace, ToLower, Trim;
    NoColonIsLowered(host);
    var s := host + port;
    assert s != "" ==> s[0] == (if host != "" then host[0] else port[0]) && !IsSpace(s[0]) by {
      ColonIsNoBlank();
    }
    TrimmedBetween(a, s, b);
    LowerConcat(host, port);
    if port != "" {
      LoweredAt(port, 0);
      assert (ToLower(host) + ToLower(port))[|ToLower(host)|] == ':';
    } else {
      assert ToLower(s) == ToLower(host) + "" by {
        assert s == host;
      }
    }
  }

  lemma ColonIsNoBlank()
    ensures !IsSpace(':')
  {
  }

  lemma {:induction false} LowerConcat(a: string, b: string)
    ensures ToLower(a + b) == ToLower(a) + ToLower(b)
  {
    if a == "" {
      assert a + b == b;
    } else {
      assert (a + b)[1..] == a[1..] + b;
      LowerConcat(a[1..], b);
    }
  }

  lemma {:induction false} NoColonIsLowered(s: string)
    requires ':' !in s
    ensures ':' !in ToLower(s)
  {
    if s != "" {
      assert s[0] in s && s[0] != ':';
      NoColonIsLowered(s[1..]);
    }
  }

  predicate NameMatches(pattern: string, host: string) {
    || pattern == host
    || (HasPrefix(pattern, "*.") && HasSuffix(host, pattern[1..]) && host != pattern[2..])
  }

  /** A wildcard pattern accepts exactly the names that end in a dot and its domain: any number of labels, even an
      empty one; the comparison with the bare domain never decides anything. */
  lemma WildcardMatchesIff(domain: string, host: string)
    ensures NameMatches("*." + domain, host) <==>
              host == "*." + domain || exists n :: 0 <= n <= |host| && host[n..] == "." + domain
  {
  }

  /** The cleaned names, without the empty one. */
  function CleanNames(names: seq<string>): set<string> {
    if names == [] then {}
    else
      var host := CleanHost(names[|names| - 1]);
      CleanNames(names[..|names| - 1]) + if host == "" then {} else {host}
  }

  function PatternSet(leaf: Option<Leaf>): set<string> {
    if leaf.None? then {} else CleanNames(leaf.value.dnsNames + [leaf.value.commonName])
  }

  /** The certificate has a DNS name, or the common name, that is not empty and accepts the host. */
  ghost predicate IsFor(leaf: Option<Leaf>, host: string) {
    leaf.Some? &&
      ((exists name :: name in leaf.value.dnsNames && Accepts(name, host)) || Accepts(leaf.value.commonName, host))
  }

  predicate Accepts(name: string, host: string) {
    CleanHost(name) != "" && NameMatches(CleanHost(name), host)
  }

  ghost predicate IsCleaned(names: seq<string>, p: string) {
    p != "" && exists name :: name in names && CleanHost(name) == p
  }

  lemma {:induction false} CleanNamesAre(names: seq<string>, p: string)
    ensures p in CleanNames(names) <==> IsCleaned(names, p)
  {
    hide CleanHost;
    if names != [] {
      var most, last := names[..|names| - 1], names[|names| - 1];
      CleanNamesAre(most, p);
      assert names == most + [last];
      if IsCleaned(names, p) && CleanHost(last) != p {
        var name :| name in names && CleanHost(name) == p;
        assert name in most;
      }
    }
  }

  /** Some name of the list accepts the host. */
  ghost predicate SomeAccepts(names: seq<string>, host: string) {
    exists name :: name in names && Accepts(name, host)
  }

  lemma PatternsAreFor(leaf: Option<Leaf>, host: string)
    ensures Owns(PatternSet(leaf), host) <==> IsFor(leaf, host)
  {
    if leaf.Some? {
      var names := leaf.value.dnsNames + [leaf.value.commonName];
      CleanNamesOwn(names, host);
      AnyOrLast(leaf.value.dnsNames, leaf.value.commonName, host);
    }
  }

  lemma CleanNamesOwn(names: seq<string>, host: string)
    ensures Owns(CleanNames(names), host) <==> SomeAccepts(names, host)
  {
    hide CleanNames, CleanHost, NameMatches;
    forall p
      ensures p in CleanNames(names) <==> IsCleaned(names, p)
    {
      CleanNamesAre(names, p);
    }
    if Owns(CleanNames(names), host) {
      var p :| p in CleanNames(names) && NameMatches(p, host);
      var name :| name in names && CleanHost(name) == p;
      assert Accepts(name, host);
    }
    if SomeAccepts(names, host) {
      var name :| name in names && Accepts(name, host);
      assert IsCleaned(names, CleanHost(name));
    }
  }

  lemma AnyOrLast(names: seq<string>, last: string, host: string)
    ensures SomeAccepts(names + [last], host) <==>
              (exists name :: name in names && Accepts(name, host)) || Accepts(last, host)
  {
    hide Accepts;
    assert last in names + [last];
    assert forall name :: name in names + [last] <==> name in names || name == last;
  }

  function PatternSets(certs: seq<Option<Leaf>>): (sets: seq<set<string>>)
    ensures |sets| == |certs|
    ensures forall i :: 0 <= i < |certs| ==> sets[i] == PatternSet(certs[i])
  {
    seq(|certs|, i requires 0 <= i < |certs| => PatternSet(certs[i]))
  }

  predicate Owns(patterns: set<string>, host: string) {
    exists p :: p in patterns && NameMatches(p, host)
  }

  /** The first of the pattern sets from `i` on that owns the name. */
  function FirstOwner(sets: seq<set<string>>, host: string, i: nat): Option<nat>
    requires i <= |sets|
    decreases |sets| - i
  {
    if i == |sets| then None else if Owns(sets[i], host) then Some(i) else FirstOwner(sets, host, i + 1)
  }

  /** The patterns of a certificate, each once, in whatever order the map hands them out. */
  method NamePatterns(leaf: Option<Leaf>) returns (patterns: seq<string>)
    ensures forall p :: p in patterns <==> p in PatternSet(leaf)
    ensures forall p :: p in patterns <==>
              leaf.Some? && (IsCleaned(leaf.value.dnsNames, p) || IsCleaned([leaf.value.commonName], p))
    ensures forall i, j :: 0 <= i < j < |patterns| ==> patterns[i] != patterns[j]
  {
    hide CleanHost;
    patterns := [];
    if leaf.None? {
      return;
    }
    var names := leaf.value.dnsNames + [leaf.value.commonName];
    var seen: set<string> := {};
    for i := 0 to |names|
      invariant seen == CleanNames(names[..i])
    {
      OneMoreName(names, i);
      var value := CleanHost(names[i]);
      if value != "" {
        seen := seen + {value};
      }
    }
    assert names[..|names|] == names;
    patterns := Enumerate(seen);
    forall p
      ensures p in patterns <==> IsCleaned(leaf.value.dnsNames, p) || IsCleaned([leaf.value.commonName], p)
    {
      CleanNamesAre(names, p);
      EitherIsCleaned(leaf.value.dnsNames, leaf.value.commonName, p);
    }
  }

  lemma EitherIsCleaned(names: seq<string>, last: string, p: string)
    ensures IsCleaned(names + [last], p) <==> IsCleaned(names, p) || IsCleaned([last], p)
  {
    hide CleanHost;
    if IsCleaned([last], p) {
      assert last in names + [last] && [last][0] == last;
    }
    if IsCleaned(names + [last], p) && !IsCleaned(names, p) {
      assert CleanHost(last) == p && last in [last];
    }
  }

  lemma OneMoreName(names: seq<string>, i: nat)
    requires i < |names|
    ensures var host := CleanHost(names[i]);
            CleanNames(names[..i + 1]) == CleanNames(names[..i]) + if host == "" then {} else {host}
  {
    assert names[..i + 1][..i] == names[..i];
  }

  /** Ranging over a Go map used as a set: every element once, in no particular order. */
  method Enumerate(items: set<string>) returns (listed: seq<string>)
    ensures forall p :: p in listed <==> p in items
    ensures forall i, j :: 0 <= i < j < |listed| ==> listed[i] != listed[j]
  {
    listed := [];
    var todo := items;
    while todo != {}
      invariant todo <= items
      invariant forall i, j :: 0 <= i < j < |listed| ==> listed[i] != listed[j]
      invariant forall p :: p in listed <==> p in items - todo
      decreases |todo|
    {
      var p :| p in todo;
      assert p !in listed && forall i :: 0 <= i < |listed| ==> listed[i] in listed;
      listed := listed + [p];
      todo := todo - {p};
    }
  }

  /** The selector: the first configured certificate owning any matching pattern, and an error when the name is empty
      or nobody owns it, whatever order the patterns came in. */
  method SelectCertificate(certs: seq<Option<Leaf>>, serverName: string) returns (choice: Option<nat>)
    ensures choice == if CleanHost(serverName) == "" then None
                      else FirstOwner(PatternSets(certs), CleanHost(serverName), 0)
    ensures var host := CleanHost(serverName);
            && (choice.Some? <==> host != "" && exists j :: 0 <= j < |certs| && IsFor(certs[j], host))
            && (choice.Some? ==>
                  && choice.value < |certs| && IsFor(certs[choice.value], host)
                  && forall j :: 0 <= j < choice.value ==> !IsFor(certs[j], host))
  {
    var host := CleanHost(serverName);
    if host == "" {
      return None;
    }
    choice := SelectFor(certs, host);
    ChoiceIsLeast(certs, host);
  }

  lemma ChoiceIsLeast(certs: seq<Option<Leaf>>, host: string)
    ensures var choice := FirstOwner(PatternSets(certs), host, 0);
            var end := if choice.Some? then choice.value else |certs|;
            && end <= |certs| && (forall j :: 0 <= j < end ==> !IsFor(certs[j], host))
            && (choice.Some? ==> end < |certs| && IsFor(certs[end], host))
  {
    hide IsFor, PatternSet, Owns;
    FirstOwnerIsLeast(PatternSets(certs), host, 0);
    forall j | 0 <= j < |certs|
      ensures Owns(PatternSets(certs)[j], host) <==> IsFor(certs[j], host)
    {
      PatternsAreFor(certs[j], host);
    }
  }

  method SelectFor(certs: seq<Option<Leaf>>, host: string) returns (choice: Option<nat>)
    ensures choice == FirstOwner(PatternSets(certs), host, 0)
  {
    ghost var sets := PatternSets(certs);
    for i := 0 to |certs|
      invariant FirstOwner(sets, host, 0) == FirstOwner(sets, host, i)
    {
      var patterns := NamePatterns(certs[i]);
      var owns := AnyMatches(patterns, host);
      assert owns <==> Owns(sets[i], host);
      if owns {
        return Some(i);
      }
    }
    return None;
  }

  method AnyMatches(patterns: seq<string>, host: string) returns (found: bool)
    ensures found <==> exists p :: p in patterns && NameMatches(p, host)
  {
    for j := 0 to |patterns|
      invariant forall k :: 0 <= k < j ==> !NameMatches(patterns[k], host)
    {
      if NameMatches(patterns[j], host) {
        assert patterns[j] in patterns;
        return true;
      }
    }
    return false;
  }

  /** hostSetMatches: the exact entry first, then the wildcards in any order. */
  method HostSetMatches(hosts: set<string>, host: string) returns (found: bool)
    ensures found <==> exists p :: p in hosts && NameMatches(p, host)
  {
    if host in hosts {
      assert NameMatches(host, host);
      return true;
    }
    var todo := hosts;
    while todo != {}
      invariant todo <= hosts
      invariant forall p :: p in hosts - todo ==> !NameMatches(p, host)
      decreases |todo|
    {
      var pattern :| pattern in todo;
      if HasPrefix(pattern, "*.") && HasSuffix(host, pattern[1..]) && host != pattern[2..] {
        assert NameMatches(pattern, host);
        return true;
      }
      todo := todo - {pattern};
    }
    return false;
  }

  /** The chosen certificate is the least index that owns the name, and there is none exactly if nobody does. */
  lemma {:induction false} FirstOwnerIsLeast(sets: seq<set<string>>, host: string, i: nat)
    requires i <= |sets|
    ensures var first := FirstOwner(sets, host, i);
            var end := if first.Some? then first.value else |sets|;
            && i <= end <= |sets| && (forall j :: i <= j < end ==> !Owns(sets[j], host))
            && (first.Some? ==> end < |sets| && Owns(sets[end], host))
    decreases |sets| - i
  {
    if i < |sets| && !Owns(sets[i], host) {
      FirstOwnerIsLeast(sets, host, i + 1);
    }
  }
}
