/** The string functions the Go code calls, on sequences of Unicode characters. */
module Text {

  /** Unicode White_Space, as strings.TrimSpace uses it. */
  predicate IsSpace(c: char) {
    var n := c as int;
    || 0x9 <= n <= 0xD || n == 0x20 || n == 0x85 || n == 0xA0 || n == 0x1680 || 0x2000 <= n <= 0x200A
    || n == 0x2028 || n == 0x2029 || n == 0x202F || n == 0x205F || n == 0x3000
  }

  function TrimLeft(s: string): (r: string)
    ensures r == [] || !IsSpace(r[0])
    ensures |r| <= |s| && r == s[|s| - |r|..]
  {
    if s != [] && IsSpace(s[0]) then TrimLeft(s[1..]) else s
  }

  function TrimRight(s: string): (r: string)
    ensures r == [] || !IsSpace(r[|r| - 1])
    ensures r <= s
  {
    if s != [] && IsSpace(s[|s| - 1]) then TrimRight(s[..|s| - 1]) else s
  }

  function Trim(s: string): (r: string)
    ensures r != [] ==> !IsSpace(r[0]) && !IsSpace(r[|r| - 1])
  {
    TrimRight(TrimLeft(s))
  }

  lemma BareTextIsTrimmed(s: string)
    requires s != "" && !IsSpace(s[0]) && !IsSpace(s[|s| - 1])
    ensures Trim(s) == s
  {
    assert TrimLeft(s) == s && TrimRight(s) == s;
  }

  /** Blanks in front make no difference. */
  lemma {:induction false} PaddedIsTrimmed(pad: string, s: string)
    requires forall c :: c in pad ==> IsSpace(c)
    ensures Trim(pad + s) == Trim(s)
  {
    if pad == "" {
      assert pad + s == s;
    } else {
      assert IsSpace(pad[0]) && (pad + s)[1..] == pad[1..] + s;
      PaddedIsTrimmed(pad[1..], s);
    }
  }

  ghost predicate IsPadding(s: string) {
    forall c :: c in s ==> IsSpace(c)
  }

  /** What trimming means: the blanks at both ends go, and nothing else. */
  lemma TrimmedBetween(a: string, s: string, b: string)
    requires IsPadding(a) && IsPadding(b)
    requires s == "" || (!IsSpace(s[0]) && !IsSpace(s[|s| - 1]))
    ensures Trim(a + (s + b)) == s
  {
    hide IsSpace;
    PaddedIsTrimmed(a, s + b);
    if s == "" {
      assert s + b == b + "";
      PaddedIsTrimmed(b, "");
    } else {
      TrimmedRight(s, b);
      assert (s + b)[0] == s[0];
    }
  }

  lemma {:induction false} TrimmedRight(s: string, b: string)
    requires s != "" && !IsSpace(s[|s| - 1]) && IsPadding(b)
    ensures TrimRight(s + b) == s
  {
    if b == "" {
      assert s + b == s;
    } else {
      assert (s + b)[..|s + b| - 1] == s + b[..|b| - 1] && IsSpace(b[|b| - 1]);
      TrimmedRight(s, b[..|b| - 1]);
    }
  }

  predicate HasPrefix(s: string, prefix: string) {
    prefix <= s
  }

  predicate HasSuffix(s: string, suffix: string) {
    |suffix| <= |s| && s[|s| - |suffix|..] == suffix
  }

  predicate Contains(s: string, part: string) {
    HasPrefix(s, part) || (s != [] && Contains(s[1..], part))
  }

  predicate Occurs(s: string, part: string, i: nat) {
    i + |part| <= |s| && s[i..i + |part|] == part
  }

  lemma {:induction false} ContainsIff(s: string, part: string)
    ensures Contains(s, part) <==> exists i: nat :: Occurs(s, part, i)
  {
    if HasPrefix(s, part) {
      assert Occurs(s, part, 0);
    } else if s != "" {
      ContainsIff(s[1..], part);
      forall i: nat | Occurs(s[1..], part, i)
        ensures Occurs(s, part, i + 1)
      {
        assert s[i + 1..i + 1 + |part|] == s[1..][i..i + |part|];
      }
      forall i: nat | Occurs(s, part, i)
        ensures i > 0 && Occurs(s[1..], part, i - 1)
      {
        assert i > 0 ==> s[1..][i - 1..i - 1 + |part|] == s[i..i + |part|];
      }
    }
  }

  /** The first position of `c` in `s`, or `|s|`. */
  function Find(s: string, c: char): (i: nat)
    ensures i <= |s|
    ensures i < |s| ==> s[i] == c
    ensures forall j :: 0 <= j < i ==> s[j] != c
  {
    if s == [] then 0 else if s[0] == c then 0 else Find(s[1..], c) + 1
  }

  function Lower(c: char): char {
    if 'A' <= c <= 'Z' then (c as int + 32) as char else c
  }

  /** strings.ToLower on ASCII text; other characters are left alone. */
  function ToLower(s: string): string {
    if s == "" then "" else [Lower(s[0])] + ToLower(s[1..])
  }

  /** Letter by letter; everything else stays as it is. */
  lemma {:induction false} LoweredAt(s: string, i: nat)
    requires i < |s|
    ensures |ToLower(s)| == |s|
    ensures !('A' <= s[i] <= 'Z') ==> ToLower(s)[i] == s[i]
    ensures 'A' <= s[i] <= 'Z' ==> ToLower(s)[i] as int - 'a' as int == s[i] as int - 'A' as int
  {
    if |s| > 1 {
      LoweredAt(s[1..], if i > 0 then i - 1 else 0);
    }
  }

  /** strings.Split on a single-character separator. */
  function Split(s: string, sep: char): (parts: seq<string>)
    ensures parts != []
    decreases |s|
  {
    var i := Find(s, sep);
    if i == |s| then [s] else [s[..i]] + Split(s[i + 1..], sep)
  }

  function TrimQuotes(s: string): string
    decreases |s|
  {
    if s == [] then s
    else if s[0] == '"' then TrimQuotes(s[1..])
    else if s[|s| - 1] == '"' then TrimQuotes(s[..|s| - 1])
    else s
  }

  ghost predicate AllQuotes(s: string) {
    forall i :: 0 <= i < |s| ==> s[i] == '"'
  }

  /** Double quotes at both ends go, and nothing else. */
  lemma {:induction false} UnquotedBetween(a: string, s: string, b: string)
    requires AllQuotes(a) && AllQuotes(b) && (s == "" || (s[0] != '"' && s[|s| - 1] != '"'))
    ensures TrimQuotes(a + s + b) == s
    decreases |a| + |b|
  {
    var all := a + s + b;
    if a != "" {
      assert all[0] == '"' && all[1..] == a[1..] + s + b;
      UnquotedBetween(a[1..], s, b);
    } else if b == "" {
      assert all == s;
    } else if s == "" {
      assert all[0] == '"' && all[1..] == "" + s + b[1..];
      UnquotedBetween("", s, b[1..]);
    } else {
      assert all[..|all| - 1] == "" + s + b[..|b| - 1] && all[|all| - 1] == '"' && all[0] == s[0];
      UnquotedBetween("", s, b[..|b| - 1]);
    }
  }

  predicate IsDigit(c: char) {
    '0' <= c <= '9'
  }

  function DigitsValue(s: string): nat
    requires forall c :: c in s ==> IsDigit(c)
  {
    if s == [] then 0
    else
      assert IsDigit(s[|s| - 1]);
      DigitsValue(s[..|s| - 1]) * 10 + (s[|s| - 1] as int - '0' as int)
  }

  function Decimal(n: nat): string {
    if n < 10 then [('0' as int + n) as char]
    else Decimal(n / 10) + [('0' as int + n % 10) as char]
  }
}
