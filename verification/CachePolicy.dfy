/** Which responses the edge caches, under which key, and for how long. */
module CachePolicy {
  import opened Options
  import opened Recency
  import opened Text

  /** `dropped` names the headers that the request's Connection header lists. */
  datatype Request = Request(verb: string, host: string, uri: string, acceptEncoding: string,
                             authorization: string, dropped: set<string>)

  const INT64_MAX: int := 0x7FFF_FFFF_FFFF_FFFF

  /** http.Header.Get: the first value, or the empty string. */
  function Get(header: HeaderView, name: string): string {
    if name in header && header[name] != [] then header[name][0] else ""
  }

  function CacheKey(r: Request): string {
    r.host + "\0" + r.uri + "\0" + r.acceptEncoding
  }

  /** The key tells requests apart as long as host and URI hold no NUL. */
  lemma CacheKeyIsInjective(a: Request, b: Request)
    requires '\0' !in a.host && '\0' !in a.uri && '\0' !in b.host && '\0' !in b.uri
    ensures CacheKey(a) == CacheKey(b) <==>
            a.host == b.host && a.uri == b.uri && a.acceptEncoding == b.acceptEncoding
  {
    if CacheKey(a) == CacheKey(b) {
      assert CacheKey(a) == a.host + "\0" + (a.uri + "\0" + a.acceptEncoding);
      assert CacheKey(b) == b.host + "\0" + (b.uri + "\0" + b.acceptEncoding);
      FirstNulDecides(a.host, a.uri + "\0" + a.acceptEncoding, b.host, b.uri + "\0" + b.acceptEncoding);
      FirstNulDecides(a.uri, a.acceptEncoding, b.uri, b.acceptEncoding);
    }
  }

  lemma FirstNulDecides(a: string, restA: string, b: string, restB: string)
    requires '\0' !in a && '\0' !in b
    requires a + "\0" + restA == b + "\0" + restB
    ensures a == b && restA == restB
  {
    FindAfter(a, restA);
    FindAfter(b, restB);
    var x, y := a + "\0" + restA, b + "\0" + restB;
    assert a == x[..|a|] && b == y[..|b|];
    assert restA == x[|a| + 1..] && restB == y[|b| + 1..];
  }

  lemma FindAfter(a: string, rest: string)
    requires '\0' !in a
    ensures Find(a + "\0" + rest, '\0') == |a|
  {
    var x := a + "\0" + rest;
    assert x[|a|] == '\0';
    assert forall j :: 0 <= j < |a| ==> x[j] == a[j];
  }

  /** strconv.ParseInt(s, 10, 64): None for anything that is not an int64 in decimal. */
  function ParseInt64(s: string): Option<int> {
    var signed := s != [] && (s[0] == '-' || s[0] == '+');
    var digits := if signed then s[1..] else s;
    if digits == [] || exists c :: c in digits && !IsDigit(c) then None
    else
      assert forall c :: c in digits ==> IsDigit(c);
      var n: int := DigitsValue(digits);
      if signed && s[0] == '-' then
        if n <= INT64_MAX + 1 then Some(-n) else None
      else if n <= INT64_MAX then Some(n) else None
  }

  ghost predicate IsNumeral(s: string, sign: string, digits: string) {
    && s == sign + digits && (sign == "" || sign == "+" || sign == "-")
    && digits != "" && forall c :: c in digits ==> IsDigit(c)
  }

  function NumeralValue(sign: string, digits: string): int
    requires forall c :: c in digits ==> IsDigit(c)
  {
    var n: int := DigitsValue(digits);
    if sign == "-" then -n else n
  }

  /** Exactly the decimal numerals in the range of an int64, with or without a sign, are read, as their values. */
  lemma ParseInt64Iff(s: string, n: int)
    ensures ParseInt64(s) == Some(n) <==>
              -INT64_MAX - 1 <= n <= INT64_MAX
              && exists sign, digits :: IsNumeral(s, sign, digits) && NumeralValue(sign, digits) == n
  {
    var signed := s != [] && (s[0] == '-' || s[0] == '+');
    var sign, digits := if signed then s[..1] else "", if signed then s[1..] else s;
    assert s == sign + digits;
    forall other, rest | IsNumeral(s, other, rest)
      ensures other == sign && rest == digits
    {
      assert other != "" ==> s[0] == other[0] && s[1..] == rest;
      assert other == "" ==> s == rest && s[0] in s;
    }
    if ParseInt64(s) == Some(n) {
      assert IsNumeral(s, sign, digits) && NumeralValue(sign, digits) == n;
    }
  }

  /** The text after the '=' of a part that sets directive `name`. */
  function PartValue(part: string, name: string): Option<string> {
    var trimmed := Trim(part);
    var cut := Find(trimmed, '=');
    if cut == |trimmed| || Trim(trimmed[..cut]) != name then None else Some(trimmed[cut + 1..])
  }

  function SecondsIn(value: string): int {
    match ParseInt64(TrimQuotes(value))
    case None => 0
    case Some(seconds) => if seconds > 0 then seconds else 0
  }

  function PartSeconds(part: string, name: string): int {
    match PartValue(part, name)
    case None => 0
    case Some(value) => SecondsIn(value)
  }

  /** What a part has to look like to set directive `name` to `n` seconds. */
  ghost predicate Sets(part: string, name: string, n: int) {
    exists key, value :: IsSetting(part, key, value) && Trim(key) == name && ParseInt64(TrimQuotes(value)) == Some(n)
  }

  ghost predicate IsSetting(part: string, key: string, value: string) {
    Trim(part) == key + "=" + value && '=' !in key
  }

  lemma PartSecondsIff(part: string, name: string, n: int)
    requires n > 0
    ensures PartSeconds(part, name) == n <==> Sets(part, name, n)
  {
    hide Trim, TrimQuotes, ParseInt64;
    var trimmed := Trim(part);
    var cut := Find(trimmed, '=');
    forall key, value | IsSetting(part, key, value)
      ensures key == trimmed[..cut] && value == trimmed[cut + 1..] && cut < |trimmed|
    {
      CutAtEquals(key, value);
    }
    if cut < |trimmed| {
      assert trimmed == trimmed[..cut] + "=" + trimmed[cut + 1..];
      assert IsSetting(part, trimmed[..cut], trimmed[cut + 1..]);
    }
  }

  function FirstPositive(parts: seq<string>, name: string): (seconds: int)
    ensures 0 <= seconds <= INT64_MAX
  {
    if parts == [] then 0
    else if PartSeconds(parts[0], name) > 0 then PartSeconds(parts[0], name)
    else FirstPositive(parts[1..], name)
  }

  /** The first positive value of directive `name`, or 0. */
  function DirectiveSeconds(cacheControl: string, name: string): int {
    FirstPositive(Split(cacheControl, ','), name)
  }

  /** The text has a comma-separated part that sets one of the two lifetimes to a positive number. */
  ghost predicate NamesLifetime(text: string) {
    SomeSets(Split(text, ','), "s-maxage") || SomeSets(Split(text, ','), "max-age")
  }

  ghost predicate SomeSets(parts: seq<string>, name: string) {
    exists i, n :: 0 <= i < |parts| && n > 0 && Sets(parts[i], name, n)
  }

  lemma {:induction false} FirstPositiveIff(parts: seq<string>, name: string)
    ensures FirstPositive(parts, name) > 0 <==> SomeSets(parts, name)
  {
    hide PartSeconds, Sets;
    if parts != [] {
      FirstPositiveIff(parts[1..], name);
      forall n: int | n > 0
        ensures PartSeconds(parts[0], name) == n <==> Sets(parts[0], name, n)
      {
        PartSecondsIff(parts[0], name, n);
      }
      if PartSeconds(parts[0], name) > 0 {
        assert Sets(parts[0], name, PartSeconds(parts[0], name));
      }
      if SomeSets(parts[1..], name) {
        var i, n :| 0 <= i < |parts[1..]| && n > 0 && Sets(parts[1..][i], name, n);
        assert Sets(parts[i + 1], name, n);
      }
      if SomeSets(parts, name) {
        var i, n :| 0 <= i < |parts| && n > 0 && Sets(parts[i], name, n);
        assert i > 0 ==> Sets(parts[1..][i - 1], name, n);
      }
    }
  }

  predicate IsDirectiveName(name: string) {
    name != "" && !IsSpace(name[0]) && !IsSpace(name[|name| - 1]) && '=' !in name && ',' !in name
  }

  /** The parts of a header value with commas between them. */
  function Joined(parts: seq<string>): string {
    if parts == [] then "" else if |parts| == 1 then parts[0] else parts[0] + "," + Joined(parts[1..])
  }

  ghost predicate HoldNoComma(parts: seq<string>) {
    forall i :: 0 <= i < |parts| ==> ',' !in parts[i]
  }

  lemma {:induction false} SplitJoined(parts: seq<string>)
    requires parts != [] && HoldNoComma(parts)
    ensures Split(Joined(parts), ',') == parts
  {
    var first, s := parts[0], Joined(parts);
    if |parts| == 1 {
      assert Find(first, ',') == |first|;
      assert parts == [first];
    } else {
      var rest := Joined(parts[1..]);
      SplitJoined(parts[1..]);
      CutAtComma(first, rest);
      assert parts == [first] + parts[1..];
    }
  }

  lemma CutAtComma(first: string, rest: string)
    requires ',' !in first
    ensures Split(first + "," + rest, ',') == [first] + Split(rest, ',')
  {
    var s := first + "," + rest;
    assert s[|first|] == ',' && forall j :: 0 <= j < |first| ==> s[j] == first[j];
    assert Find(s, ',') == |first|;
    assert s[..|first|] == first && s[|first| + 1..] == rest;
  }

  /** Parts that say nothing positive about the directive are passed over. */
  lemma {:induction false} FirstPositiveFrom(parts: seq<string>, name: string, i: nat)
    requires i <= |parts| && forall j :: 0 <= j < i ==> PartSeconds(parts[j], name) == 0
    ensures FirstPositive(parts, name) == FirstPositive(parts[i..], name)
  {
    if i == 0 {
      assert parts[0..] == parts;
    } else {
      assert parts[1..][i - 1..] == parts[i..];
      FirstPositiveFrom(parts[1..], name, i - 1);
    }
  }

  /** In a list of directives, the first one of that name with a positive int64 in plain decimal is read back as that
      number; one with another number is passed over.  Blanks may stand in front of it. */
  lemma PlainDirectiveIsReadBack(parts: seq<string>, i: nat, pad: string, name: string, n: nat)
    requires i < |parts| && HoldNoComma(parts) && IsDirectiveName(name)
    requires parts[i] == pad + (name + "=" + Decimal(n)) && forall c :: c in pad ==> IsSpace(c)
    requires forall j :: 0 <= j < i ==> PartSeconds(parts[j], name) == 0
    ensures DirectiveSeconds(Joined(parts), name) == if 0 < n <= INT64_MAX then n else FirstPositive(parts[i + 1..], name)
  {
    PaddedPartIsRead(pad, name, n);
    ListIsScanned(parts, i, name);
  }

  lemma PaddedPartIsRead(pad: string, name: string, n: nat)
    requires IsDirectiveName(name) && forall c :: c in pad ==> IsSpace(c)
    ensures PartSeconds(pad + (name + "=" + Decimal(n)), name) == if n <= INT64_MAX then n else 0
  {
    hide PartSeconds, IsDigit, IsDirectiveName;
    DecimalIsDigits(n);
    PartIsRead(name, Decimal(n), n);
    PaddingIsIgnored(pad, name + "=" + Decimal(n), name);
  }

  lemma PaddingIsIgnored(pad: string, part: string, name: string)
    requires forall c :: c in pad ==> IsSpace(c)
    ensures PartSeconds(pad + part, name) == PartSeconds(part, name)
  {
    hide Trim, SecondsIn;
    PaddedIsTrimmed(pad, part);
  }

  lemma ListIsScanned(parts: seq<string>, i: nat, name: string)
    requires i < |parts| && HoldNoComma(parts)
    requires forall j :: 0 <= j < i ==> PartSeconds(parts[j], name) == 0
    ensures DirectiveSeconds(Joined(parts), name) ==
            if PartSeconds(parts[i], name) > 0 then PartSeconds(parts[i], name) else FirstPositive(parts[i + 1..], name)
  {
    SplitJoined(parts);
    FirstPositiveFrom(parts, name, i);
    assert parts[i..][0] == parts[i] && parts[i..][1..] == parts[i + 1..];
  }

  lemma SinglePart(part: string, name: string)
    requires Find(part, ',') == |part| && PartSeconds(part, name) >= 0
    ensures DirectiveSeconds(part, name) == PartSeconds(part, name)
  {
    FirstOfOne(part, name);
    assert Split(part, ',') == [part];
  }

  lemma FirstOfOne(part: string, name: string)
    requires PartSeconds(part, name) >= 0
    ensures FirstPositive([part], name) == PartSeconds(part, name)
  {
    assert FirstPositive([part][1..], name) == 0;
  }

  lemma PartIsRead(name: string, digits: string, n: nat)
    requires IsDirectiveName(name)
    requires digits != "" && (forall c :: c in digits ==> IsDigit(c)) && DigitsValue(digits) == n
    ensures PartSeconds(name + "=" + digits, name) == if n <= INT64_MAX then n else 0
  {
    DigitsAreRead(digits, n);
    PartNamesValue(name, digits);
  }

  lemma PartNamesValue(name: string, value: string)
    requires IsDirectiveName(name) && value != "" && !IsSpace(value[|value| - 1])
    ensures PartValue(name + "=" + value, name) == Some(value)
  {
    var part := name + "=" + value;
    assert part[0] == name[0] && part[|part| - 1] == value[|value| - 1];
    BareTextIsTrimmed(part);
    BareTextIsTrimmed(name);
    CutAtEquals(name, value);
  }

  lemma CutAtEquals(name: string, value: string)
    requires '=' !in name
    ensures var part := name + "=" + value;
            Find(part, '=') == |name| && part[..|name|] == name && part[|name| + 1..] == value
  {
    var part := name + "=" + value;
    assert part[|name|] == '=' && forall j :: 0 <= j < |name| ==> part[j] == name[j];
  }

  lemma {:induction false} DecimalIsDigits(n: nat)
    ensures Decimal(n) != "" && (forall c :: c in Decimal(n) ==> IsDigit(c)) && DigitsValue(Decimal(n)) == n
  {
    if n >= 10 {
      DecimalIsDigits(n / 10);
      var s := Decimal(n);
      assert s[..|s| - 1] == Decimal(n / 10);
    } else {
      assert Decimal(n)[..0] == "";
    }
  }

  lemma DigitsAreRead(digits: string, n: nat)
    requires digits != "" && (forall c :: c in digits ==> IsDigit(c)) && DigitsValue(digits) == n
    ensures !IsSpace(digits[|digits| - 1])
    ensures SecondsIn(digits) == if n <= INT64_MAX then n else 0
  {
    assert IsDigit(digits[0]) && IsDigit(digits[|digits| - 1]);
    assert TrimQuotes(digits) == digits;
  }

  predicate IsCacheable(r: Request, status: int, header: HeaderView) {
    var cacheControl := ToLower(Get(header, "Cache-Control"));
    && r.verb == "GET" && r.authorization == "" && status == 200
    && !Contains(cacheControl, "private") && !Contains(cacheControl, "no-store")
    && !Contains(cacheControl, "no-cache")
    && Get(header, "Set-Cookie") == "" && Get(header, "Authorization") == ""
    && (|| Contains(cacheControl, "public")
        || DirectiveSeconds(cacheControl, "s-maxage") > 0
        || DirectiveSeconds(cacheControl, "max-age") > 0)
  }

  predicate HasNone(header: HeaderView, name: string) {
    name !in header || header[name] == [] || header[name][0] == ""
  }

  ghost predicate Mentions(text: string, word: string) {
    exists i: nat :: Occurs(text, word, i)
  }

  /** Exactly what may be cached: the complete answer to a GET without Authorization, with no cookie and no word that
      forbids it, that says public or gives itself a lifetime. */
  lemma CacheableIff(r: Request, status: int, header: HeaderView)
    ensures var text := ToLower(if HasNone(header, "Cache-Control") then "" else header["Cache-Control"][0]);
            IsCacheable(r, status, header) <==>
              && r.verb == "GET" && r.authorization == "" && status == 200
              && HasNone(header, "Set-Cookie") && HasNone(header, "Authorization")
              && !Mentions(text, "private") && !Mentions(text, "no-store") && !Mentions(text, "no-cache")
              && (Mentions(text, "public") || NamesLifetime(text))
  {
    hide Contains, Split, FirstPositive, Sets, ToLower;
    var text := ToLower(Get(header, "Cache-Control"));
    ContainsIff(text, "private");
    ContainsIff(text, "no-store");
    ContainsIff(text, "no-cache");
    ContainsIff(text, "public");
    FirstPositiveIff(Split(text, ','), "s-maxage");
    FirstPositiveIff(Split(text, ','), "max-age");
  }

  lemma {:induction false} PartIsMentioned(parts: seq<string>, i: nat, pad: string, word: string)
    requires i < |parts| && parts[i] == pad + word
    ensures Mentions(Joined(parts), word)
  {
    if i == 0 {
      var s := Joined(parts);
      assert s[|pad|..|pad| + |word|] == word;
      assert Occurs(s, word, |pad|);
    } else {
      PartIsMentioned(parts[1..], i - 1, pad, word);
      var k: nat :| Occurs(Joined(parts[1..]), word, k);
      var before := parts[0] + ",";
      assert Joined(parts) == before + Joined(parts[1..]);
      assert Joined(parts)[|before| + k..|before| + k + |word|] == Joined(parts[1..])[k..k + |word|];
      assert Occurs(Joined(parts), word, |before| + k);
    }
  }

  /** ... and so a reply is admitted that says public, or one of the lifetimes in plain decimal, anywhere in its list. */
  lemma SharedReplyIsAdmitted(r: Request, header: HeaderView, parts: seq<string>, i: nat, pad: string, name: string,
                              n: nat)
    requires r.verb == "GET" && r.authorization == ""
    requires HasNone(header, "Set-Cookie") && HasNone(header, "Authorization") && !HasNone(header, "Cache-Control")
    requires ToLower(header["Cache-Control"][0]) == Joined(parts) && HoldNoComma(parts) && i < |parts|
    requires forall word :: word in ["private", "no-store", "no-cache"] ==> !Mentions(Joined(parts), word)
    requires forall c :: c in pad ==> IsSpace(c)
    requires parts[i] == pad + "public"
             || ((name == "s-maxage" || name == "max-age") && parts[i] == pad + (name + "=" + Decimal(n))
                 && 0 < n <= INT64_MAX)
    ensures IsCacheable(r, 200, header)
  {
    hide Mentions, Sets, Decimal, IsSpace, IsCacheable, ToLower, Joined, Split, HoldNoComma;
    NobodyForbids(parts);
    CacheableIff(r, 200, header);
    SplitJoined(parts);
    if parts[i] == pad + "public" {
      PartIsMentioned(parts, i, pad, "public");
    } else {
      PlainPartSets(parts[i], pad, name, n);
      assert SomeSets(parts, name);
    }
  }

  lemma NobodyForbids(parts: seq<string>)
    requires forall word :: word in ["private", "no-store", "no-cache"] ==> !Mentions(Joined(parts), word)
    ensures !Mentions(Joined(parts), "private") && !Mentions(Joined(parts), "no-store")
    ensures !Mentions(Joined(parts), "no-cache")
  {
    hide Mentions, Joined;
    var words := ["private", "no-store", "no-cache"];
    assert words[0] in words && words[1] in words && words[2] in words;
  }

  lemma PlainPartSets(part: string, pad: string, name: string, n: nat)
    requires (forall c :: c in pad ==> IsSpace(c)) && 0 < n <= INT64_MAX && (name == "s-maxage" || name == "max-age")
    requires part == pad + (name + "=" + Decimal(n))
    ensures Sets(part, name, n)
  {
    hide IsSpace, Decimal, PartSeconds, Sets;
    LifetimesAreNames();
    PaddedPartIsRead(pad, name, n);
    PartSecondsIff(part, name, n);
  }

  /** Go's int64 arithmetic wraps around. */
  function Wrap64(n: int): (r: int)
    ensures -INT64_MAX - 1 <= r <= INT64_MAX
  {
    (n + 0x8000_0000_0000_0000) % 0x1_0000_0000_0000_0000 - 0x8000_0000_0000_0000
  }

  /** The seconds the origin asks for: s-maxage before max-age; 0 when it names neither. */
  function OriginSeconds(header: HeaderView): (seconds: int)
    ensures 0 <= seconds <= INT64_MAX
  {
    var cacheControl := ToLower(Get(header, "Cache-Control"));
    var shared := DirectiveSeconds(cacheControl, "s-maxage");
    if shared > 0 then shared else DirectiveSeconds(cacheControl, "max-age")
  }

  /** In a list that sets both, s-maxage counts, wherever it stands; max-age counts if nothing else does. */
  lemma SharedLifetimeFirst(header: HeaderView, parts: seq<string>, i: nat, pad: string, name: string, n: nat)
    requires !HasNone(header, "Cache-Control") && ToLower(header["Cache-Control"][0]) == Joined(parts)
    requires HoldNoComma(parts) && i < |parts| && (forall c :: c in pad ==> IsSpace(c)) && 0 < n <= INT64_MAX
    requires parts[i] == pad + (name + "=" + Decimal(n))
    requires forall j, m: nat :: 0 <= j < i && m > 0 ==> !Sets(parts[j], name, m)
    requires || name == "s-maxage"
             || (name == "max-age" && forall j, m: nat :: 0 <= j < |parts| && m > 0 ==> !Sets(parts[j], "s-maxage", m))
    ensures OriginSeconds(header) == n
  {
    hide PartSeconds, Sets, Decimal, IsSpace, ToLower, FirstPositive, Joined, Split, HoldNoComma;
    NothingSet(parts, name, i);
    LifetimesAreNames();
    PlainDirectiveIsReadBack(parts, i, pad, name, n);
    if name == "max-age" {
      SplitJoined(parts);
      FirstPositiveIff(parts, "s-maxage");
    }
  }

  lemma LifetimesAreNames()
    ensures IsDirectiveName("s-maxage") && IsDirectiveName("max-age")
  {
  }

  lemma NothingSet(parts: seq<string>, name: string, i: nat)
    requires i <= |parts| && forall j, m: nat :: 0 <= j < i && m > 0 ==> !Sets(parts[j], name, m)
    ensures forall j :: 0 <= j < i ==> PartSeconds(parts[j], name) == 0
  {
    hide Sets;
    forall j | 0 <= j < i
      ensures PartSeconds(parts[j], name) == 0
    {
      if PartSeconds(parts[j], name) > 0 {
        PartSecondsIff(parts[j], name, PartSeconds(parts[j], name));
      }
    }
  }

  function Nanoseconds(seconds: int): int {
    seconds * 1_000_000_000
  }

  /** The lifetime in nanoseconds that a stored entry gets. */
  function Lifetime(header: HeaderView, fallback: int): int {
    var seconds := OriginSeconds(header);
    if seconds > 0 then Wrap64(Nanoseconds(seconds)) else fallback
  }

  /** The origin's lifetime is honoured exactly while its seconds fit a time.Duration; beyond
      that the product wraps around. */
  lemma LifetimeIsHonouredIff(header: HeaderView, fallback: int)
    ensures OriginSeconds(header) == 0 ==> Lifetime(header, fallback) == fallback
    ensures OriginSeconds(header) > 0 ==>
              (Lifetime(header, fallback) == Nanoseconds(OriginSeconds(header)) <==> OriginSeconds(header) <= 9223372036)
    ensures OriginSeconds(header) > 0 ==>
              && -INT64_MAX - 1 <= Lifetime(header, fallback) <= INT64_MAX
              && (Nanoseconds(OriginSeconds(header)) - Lifetime(header, fallback)) % 0x1_0000_0000_0000_0000 == 0
  {
    hide Wrap64, OriginSeconds, Nanoseconds;
    NanosecondsFit(OriginSeconds(header));
    WrapIsExactIff(Nanoseconds(OriginSeconds(header)));
    WrapIsCongruent(Nanoseconds(OriginSeconds(header)));
  }

  lemma NanosecondsFit(seconds: int)
    ensures seconds >= 0 ==> Nanoseconds(seconds) >= 0
    ensures Nanoseconds(seconds) <= INT64_MAX <==> seconds <= 9223372036
  {
  }

  lemma WrapIsCongruent(n: int)
    ensures (n - Wrap64(n)) % 0x1_0000_0000_0000_0000 == 0
  {
  }

  lemma WrapIsExactIff(n: nat)
    ensures Wrap64(n) == n <==> n <= INT64_MAX
  {
  }

  /** The rules as one value: what is proved of the cache holds for every such pair of rules. */
  datatype Policy = Policy(cacheable: (Request, int, HeaderView) -> bool, lifetime: (HeaderView, int) -> int)

  function EdgePolicy(): Policy {
    Policy((r, status, header) => IsCacheable(r, status, header), (header, fallback) => Lifetime(header, fallback))
  }
}
