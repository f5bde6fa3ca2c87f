/** The wizard's environment files: sorted KEY="value" lines, and what a reader gets back from them. */
module EnvFiles {
  import opened Options
  import opened Text

  // ---------------------------------------------------------------- quoting

  /** strings.ReplaceAll for a single character. */
  function ReplaceAll(s: string, c: char, replacement: string): string {
    if s == "" then "" else (if s[0] == c then replacement else [s[0]]) + ReplaceAll(s[1..], c, replacement)
  }

  /** The two passes of envQuote: backslashes first, then double quotes. */
  function EnvQuote(value: string): string {
    "\"" + ReplaceAll(ReplaceAll(value, '\\', "\\\\"), '"', "\\\"") + "\""
  }

  function EscapeChar(c: char): string {
    if c == '\\' || c == '"' then ['\\', c] else [c]
  }

  /** One pass that escapes each character on its own. */
  function Escape(value: string): string {
    if value == "" then "" else EscapeChar(value[0]) + Escape(value[1..])
  }

  lemma {:induction false} ReplaceAllConcat(a: string, b: string, c: char, replacement: string)
    ensures ReplaceAll(a + b, c, replacement) == ReplaceAll(a, c, replacement) + ReplaceAll(b, c, replacement)
  {
    if a == "" {
      assert a + b == b;
    } else {
      assert (a + b)[1..] == a[1..] + b;
      ReplaceAllConcat(a[1..], b, c, replacement);
    }
  }

  lemma ReplaceOne(c: char, d: char, replacement: string)
    ensures ReplaceAll([c], d, replacement) == if c == d then replacement else [c]
  {
  }

  /** The order of the two passes matters and is right: together they escape every character once. */
  lemma {:induction false} TwoPassesAreOne(value: string)
    ensures ReplaceAll(ReplaceAll(value, '\\', "\\\\"), '"', "\\\"") == Escape(value)
    ensures EnvQuote(value) == "\"" + Escape(value) + "\""
  {
    if value != "" {
      var c := value[0];
      var first := if c == '\\' then "\\\\" else [c];
      ReplaceAllConcat(first, ReplaceAll(value[1..], '\\', "\\\\"), '"', "\\\"");
      FirstCharTwice(c);
      TwoPassesAreOne(value[1..]);
    }
  }

  lemma FirstCharTwice(c: char)
    ensures ReplaceAll(if c == '\\' then "\\\\" else [c], '"', "\\\"") == EscapeChar(c)
  {
    if c == '\\' {
      assert "\\\\" == ['\\'] + ['\\'];
      ReplaceAllConcat(['\\'], ['\\'], '"', "\\\"");
      ReplaceOne('\\', '"', "\\\"");
    } else {
      ReplaceOne(c, '"', "\\\"");
    }
  }

  // ---------------------------------------------------------------- reading a quoted value

  /** Reads up to the closing double quote, by the rules of section 2.2.3 of the POSIX Shell Command Language: a
      backslash quotes only $, `, ", \ and newline.  A reader that `expands` is one that acts on an unquoted $ or `;
      such text has no plain value for it. */
  function ReadQuoted(s: string, expands: bool): Option<(string, string)> {
    if s == "" then None
    else if s[0] == '"' then Some(("", s[1..]))
    else if s[0] == '\\' then
      if |s| < 2 then None
      else
        match ReadQuoted(s[2..], expands)
        case None => None
        case Some((value, rest)) =>
          if s[1] == '\n' then Some((value, rest))
          else if s[1] == '$' || s[1] == '`' || s[1] == '"' || s[1] == '\\' then Some(([s[1]] + value, rest))
          else Some((s[..2] + value, rest))
    else if expands && (s[0] == '$' || s[0] == '`') then None
    else
      match ReadQuoted(s[1..], expands)
      case None => None
      case Some((value, rest)) => Some(([s[0]] + value, rest))
  }

  predicate IsPlain(value: string, expands: bool) {
    expands ==> '$' !in value && '`' !in value
  }

  /** One escaped character is read back as itself, unless the reader expands it. */
  lemma EscapedIsRead(c: char, tail: string, expands: bool)
    ensures ReadQuoted(EscapeChar(c) + tail, expands) ==
            if !IsPlain([c], expands) then None
            else
              match ReadQuoted(tail, expands)
              case None => None
              case Some((value, rest)) => Some(([c] + value, rest))
  {
    var s := EscapeChar(c) + tail;
    assert expands ==> ((c == '$' || c == '`') <==> !IsPlain([c], expands)) by {
      assert [c][0] == c;
    }
    if c == '\\' || c == '"' {
      assert s[2..] == tail;
    } else {
      assert s[1..] == tail;
    }
  }

  lemma PlainByParts(c: char, value: string, expands: bool)
    ensures IsPlain([c] + value, expands) <==> IsPlain([c], expands) && IsPlain(value, expands)
  {
  }

  /** A quoted value is read back, in front of any rest, exactly when the reader has nothing to expand in it. */
  lemma {:induction false} QuotedIsReadBackIff(value: string, rest: string, expands: bool)
    ensures ReadQuoted(Escape(value) + "\"" + rest, expands) ==
            if IsPlain(value, expands) then Some((value, rest)) else None
  {
    var s := Escape(value) + "\"" + rest;
    if value == "" {
      assert s[0] == '"' && s[1..] == rest;
    } else {
      hide ReadQuoted, IsPlain, EscapeChar;
      var c, tail := value[0], Escape(value[1..]) + "\"" + rest;
      QuotedIsReadBackIff(value[1..], rest, expands);
      EscapedIsRead(c, tail, expands);
      PlainByParts(c, value[1..], expands);
      assert s == EscapeChar(c) + tail;
      assert value == [c] + value[1..];
    }
  }

  // ---------------------------------------------------------------- the file

  function Line(key: string, value: string): string {
    key + "=" + EnvQuote(value) + "\n"
  }

  function EnvText(keys: seq<string>, values: map<string, string>): string
    requires forall k :: k in keys ==> k in values
  {
    if keys == [] then ""
    else
      assert keys[0] in keys;
      Line(keys[0], values[keys[0]]) + EnvText(keys[1..], values)
  }

  /** A reader of such files: a key up to the first '=' on its line, then a quoted value, then a newline; a later
      line for a key overrides an earlier one. */
  function ReadEnv(text: string, expands: bool): Option<map<string, string>>
    decreases |text|
  {
    if text == "" then Some(map[])
    else
      var i := Find(text, '=');
      if i == |text| || '\n' in text[..i] || i + 1 == |text| || text[i + 1] != '"' then None
      else
        match ReadQuoted(text[i + 2..], expands)
        case None => None
        case Some((value, rest)) =>
          ReadShrinks(text[i + 2..], expands);
          if rest == "" || rest[0] != '\n' then None
          else
            match ReadEnv(rest[1..], expands)
            case None => None
            case Some(values) => Some(map[text[..i] := value] + values)
  }

  lemma {:induction false} ReadShrinks(s: string, expands: bool)
    ensures ReadQuoted(s, expands).Some? ==> |ReadQuoted(s, expands).value.1| < |s|
  {
    if s != "" && s[0] != '"' {
      if s[0] != '\\' {
        ReadShrinks(s[1..], expands);
      } else if |s| >= 2 {
        ReadShrinks(s[2..], expands);
      }
    }
  }

  predicate IsCleanKey(key: string) {
    '=' !in key && '\n' !in key
  }

  ghost predicate IsKeyList(keys: seq<string>, values: map<string, string>) {
    && (forall k :: k in keys <==> k in values)
    && (forall i, j :: 0 <= i < j < |keys| ==> keys[i] != keys[j])
  }

  lemma FindKey(key: string, rest: string)
    requires '=' !in key
    ensures Find(key + "=" + rest, '=') == |key|
  {
    var s := key + "=" + rest;
    assert s[|key|] == '=' && forall j :: 0 <= j < |key| ==> s[j] == key[j];
  }

  lemma ReadLine(key: string, value: string, more: string, expands: bool)
    requires IsCleanKey(key)
    ensures ReadEnv(Line(key, value) + more, expands) ==
            if !IsPlain(value, expands) then None
            else
              match ReadEnv(more, expands)
              case None => None
              case Some(values) => Some(map[key := value] + values)
  {
    hide Escape, IsPlain, ReadQuoted, ReplaceAll;
    TwoPassesAreOne(value);
    var quoted := Escape(value) + "\"" + ("\n" + more);
    var text := key + "=" + ("\"" + quoted);
    assert Line(key, value) + more == text;
    FindKey(key, "\"" + quoted);
    assert text[..|key|] == key && text[|key| + 1] == '"' && text[|key| + 2..] == quoted;
    QuotedIsReadBackIff(value, "\n" + more, expands);
    assert ("\n" + more)[1..] == more;
  }

  lemma {:induction false} ReadKeysAreClean(text: string, expands: bool)
    ensures ReadEnv(text, expands).Some? ==> forall k :: k in ReadEnv(text, expands).value ==> IsCleanKey(k)
    decreases |text|
  {
    if ReadEnv(text, expands).Some? && text != "" {
      var i := Find(text, '=');
      ReadShrinks(text[i + 2..], expands);
      ReadKeysAreClean(ReadQuoted(text[i + 2..], expands).value.1[1..], expands);
      assert IsCleanKey(text[..i]);
    }
  }

  function Restrict(values: map<string, string>, keys: seq<string>): map<string, string> {
    map k | k in values && k in keys :: values[k]
  }

  ghost predicate AllPlain(keys: seq<string>, values: map<string, string>, expands: bool) {
    forall k :: k in keys && k in values ==> IsPlain(values[k], expands)
  }

  lemma {:induction false} ReadCleanText(keys: seq<string>, values: map<string, string>, expands: bool)
    requires forall k :: k in keys ==> k in values && IsCleanKey(k)
    requires forall i, j :: 0 <= i < j < |keys| ==> keys[i] != keys[j]
    ensures ReadEnv(EnvText(keys, values), expands) ==
            if AllPlain(keys, values, expands) then Some(Restrict(values, keys)) else None
  {
    if keys == [] {
      assert Restrict(values, keys) == map[];
    } else {
      var k, rest := keys[0], keys[1..];
      HeadAndRest(keys, values, expands);
      ReadCleanText(rest, values, expands);
      ReadLine(k, values[k], EnvText(rest, values), expands);
    }
  }

  lemma HeadAndRest(keys: seq<string>, values: map<string, string>, expands: bool)
    requires keys != [] && forall k :: k in keys ==> k in values && IsCleanKey(k)
    requires forall i, j :: 0 <= i < j < |keys| ==> keys[i] != keys[j]
    ensures keys[0] in keys && forall k :: k in keys[1..] ==> k in values && IsCleanKey(k)
    ensures AllPlain(keys, values, expands) <==>
              IsPlain(values[keys[0]], expands) && AllPlain(keys[1..], values, expands)
    ensures Restrict(values, keys) == map[keys[0] := values[keys[0]]] + Restrict(values, keys[1..])
  {
  }

  /** The round trip: what writeEnv writes reads back as the map it was given if and only if no key holds an '=' or a
      newline and, for a reader that expands, no value holds a $ or a backquote. */
  lemma EnvRoundTripIff(keys: seq<string>, values: map<string, string>, expands: bool)
    requires IsKeyList(keys, values)
    ensures ReadEnv(EnvText(keys, values), expands) == Some(values)
            <==> forall k :: k in values ==> IsCleanKey(k) && IsPlain(values[k], expands)
  {
    if forall k :: k in keys ==> IsCleanKey(k) {
      ReadCleanText(keys, values, expands);
      assert Restrict(values, keys) == values;
    } else {
      ReadKeysAreClean(EnvText(keys, values), expands);
    }
  }

  // ---------------------------------------------------------------- sorting the keys

  /** Go's string order: by the first differing character, a prefix before its extensions. */
  predicate Less(a: string, b: string) {
    b != "" && (a == "" || a[0] < b[0] || (a[0] == b[0] && Less(a[1..], b[1..])))
  }

  lemma {:induction false} LessIsStrict(a: string, b: string)
    ensures !(Less(a, b) && Less(b, a))
    ensures !Less(a, b) && !Less(b, a) ==> a == b
  {
    if a != "" && b != "" {
      LessIsStrict(a[1..], b[1..]);
      if a[0] == b[0] && a[1..] == b[1..] {
        assert a == [a[0]] + a[1..] && b == [b[0]] + b[1..];
      }
    }
  }

  ghost predicate DifferAt(a: string, b: string, i: nat) {
    i <= |a| && i < |b| && a[..i] == b[..i] && (i == |a| || a[i] < b[i])
  }

  /** What the order is: where the strings part, the first one ends or has the smaller character. */
  lemma {:induction false} LessIff(a: string, b: string)
    ensures Less(a, b) <==> exists i: nat :: DifferAt(a, b, i)
  {
    if a == "" || b == "" || a[0] != b[0] {
      assert b != "" && (a == "" || a[0] < b[0]) ==> DifferAt(a, b, 0);
      forall i: nat | DifferAt(a, b, i)
        ensures i == 0
      {
        FirstAgrees(a, b, i);
      }
    } else {
      LessIff(a[1..], b[1..]);
      forall i: nat | DifferAt(a[1..], b[1..], i)
        ensures DifferAt(a, b, i + 1)
      {
        assert a[..i + 1] == [a[0]] + a[1..][..i] && b[..i + 1] == [b[0]] + b[1..][..i];
      }
      forall i: nat | DifferAt(a, b, i)
        ensures i > 0 && DifferAt(a[1..], b[1..], i - 1)
      {
        assert i > 0 ==> a[1..][..i - 1] == a[..i][1..] && b[1..][..i - 1] == b[..i][1..];
      }
    }
  }

  lemma FirstAgrees(a: string, b: string, i: nat)
    requires i <= |a| && i <= |b| && a[..i] == b[..i]
    ensures i > 0 ==> a[0] == b[0]
  {
    if i > 0 {
      assert a[..i][0] == a[0] && b[..i][0] == b[0];
    }
  }

  lemma {:induction false} NotLessIsTransitive(a: string, b: string, c: string)
    requires !Less(b, a) && !Less(c, b)
    ensures !Less(c, a)
  {
    if a != "" && b != "" && c != "" && a[0] == b[0] == c[0] {
      NotLessIsTransitive(a[1..], b[1..], c[1..]);
    }
  }

  ghost predicate IsSorted(s: seq<string>) {
    forall p, q :: 0 <= p < q < |s| ==> !Less(s[q], s[p])
  }

  /** Sorted up to `i`, except that the element at `j` may still have to move further down. */
  ghost predicate SortedBut(s: seq<string>, i: nat, j: nat) {
    forall p, q :: 0 <= p < q <= i < |s| && q != j ==> !Less(s[q], s[p])
  }

  function Swapped(s: seq<string>, j: nat): seq<string>
    requires 0 < j < |s|
  {
    s[j := s[j - 1]][j - 1 := s[j]]
  }

  lemma SwapKeepsSorted(s: seq<string>, i: nat, j: nat)
    requires 0 < j <= i < |s| && SortedBut(s, i, j) && Less(s[j], s[j - 1])
    ensures SortedBut(Swapped(s, j), i, j - 1)
    ensures multiset(Swapped(s, j)) == multiset(s)
  {
    LessIsStrict(s[j], s[j - 1]);
  }

  lemma SettledIsSorted(s: seq<string>, i: nat, j: nat)
    requires j <= i < |s| && SortedBut(s, i, j)
    requires j == 0 || !Less(s[j], s[j - 1])
    ensures IsSorted(s[..i + 1])
  {
    forall p | 0 <= p < j
      ensures !Less(s[j], s[p])
    {
      if p < j - 1 {
        NotLessIsTransitive(s[p], s[j - 1], s[j]);
      }
    }
  }

  /** The insertion sort of sortedKeys, in place. */
  method InsertionSort(a: array<string>)
    modifies a
    ensures IsSorted(a[..]) && multiset(a[..]) == multiset(old(a[..]))
  {
    var i := 1;
    while i < a.Length
      invariant 1 <= i && (i <= a.Length ==> IsSorted(a[..i])) && (i > a.Length ==> a.Length == 0)
      invariant multiset(a[..]) == multiset(old(a[..]))
    {
      var j := i;
      assert forall p :: 0 <= p < i ==> a[..][p] == a[..i][p];
      while j > 0 && Less(a[j], a[j - 1])
        invariant 0 <= j <= i < a.Length
        invariant SortedBut(a[..], i, j)
        invariant multiset(a[..]) == multiset(old(a[..]))
        decreases j
      {
        ghost var s := a[..];
        SwapKeepsSorted(s, i, j);
        a[j], a[j - 1] := a[j - 1], a[j];
        assert a[..] == Swapped(s, j);
        j := j - 1;
      }
      SettledIsSorted(a[..], i, j);
      assert a[..][..i + 1] == a[..i + 1];
      i := i + 1;
    }
    assert a.Length > 0 ==> a[..] == a[..a.Length];
  }

  /** The keys of a map in sorted order, whatever order the map hands them out in. */
  method SortedKeys(values: map<string, string>) returns (keys: seq<string>)
    ensures IsKeyList(keys, values) && IsSorted(keys)
  {
    var found := ListKeys(values.Keys);
    var a := new string[|found|](i requires 0 <= i < |found| => found[i]);
    assert a[..] == found;
    InsertionSort(a);
    keys := a[..];
    SameElements(found, keys);
  }

  /** Ranging over the keys: every key once, in no particular order. */
  method ListKeys(keys: set<string>) returns (found: seq<string>)
    ensures Lists(found, keys)
  {
    var todo, done := keys, {};
    found := [];
    while todo != {}
      invariant done + todo == keys && done !! todo
      invariant Lists(found, done)
      decreases |todo|
    {
      var k :| k in todo;
      OneMoreKey(found, done, k);
      found := found + [k];
      todo, done := todo - {k}, done + {k};
    }
  }

  /** Exactly these keys, each once. */
  ghost predicate Lists(found: seq<string>, keys: set<string>) {
    && (forall k :: k in found <==> k in keys)
    && (forall i, j :: 0 <= i < j < |found| ==> found[i] != found[j])
  }

  lemma OneMoreKey(found: seq<string>, done: set<string>, k: string)
    requires Lists(found, done) && k !in done
    ensures Lists(found + [k], done + {k})
  {
    assert forall i :: 0 <= i < |found| ==> found[i] in found;
  }

  lemma SameElements(a: seq<string>, b: seq<string>)
    requires multiset(a) == multiset(b)
    requires forall i, j :: 0 <= i < j < |a| ==> a[i] != a[j]
    ensures forall k :: k in a <==> k in b
    ensures forall i, j :: 0 <= i < j < |b| ==> b[i] != b[j]
  {
    forall k
      ensures k in a <==> k in b
    {
      assert k in a <==> multiset(a)[k] > 0;
      assert k in b <==> multiset(b)[k] > 0;
    }
    forall i, j | 0 <= i < j < |b|
      ensures b[i] != b[j]
    {
      if b[i] == b[j] {
        TwiceInMultiset(b, i, j);
        OnceInMultiset(a, b[i]);
      }
    }
  }

  lemma TwiceInMultiset(s: seq<string>, i: nat, j: nat)
    requires i < j < |s| && s[i] == s[j]
    ensures multiset(s)[s[i]] >= 2
  {
    assert s == s[..j] + s[j..];
    assert s[i] in s[..j] && s[j..][0] == s[i] && s[i] in s[j..];
  }

  lemma {:induction false} OnceInMultiset(s: seq<string>, k: string)
    requires forall i, j :: 0 <= i < j < |s| ==> s[i] != s[j]
    ensures multiset(s)[k] <= 1
  {
    if s != [] {
      OnceInMultiset(s[1..], k);
      assert s == [s[0]] + s[1..];
      assert forall j :: 0 <= j < |s[1..]| ==> s[1..][j] == s[j + 1] != s[0];
    }
  }

  /** Sorting makes the file deterministic: one map has only one sorted key list. */
  lemma {:induction false} SortedKeysAreUnique(a: seq<string>, b: seq<string>, values: map<string, string>)
    requires IsKeyList(a, values) && IsSorted(a) && IsKeyList(b, values) && IsSorted(b)
    ensures a == b
  {
    if a == [] {
      assert forall i :: 0 <= i < |b| ==> b[i] in a;
    } else {
      assert a[0] in values && a[0] in b;
      assert b[0] in values && b[0] in a;
      LessIsStrict(a[0], b[0]);
      assert a[0] == b[0];
      var rest := values - {a[0]};
      TailIsKeyList(a, values);
      TailIsKeyList(b, values);
      SortedKeysAreUnique(a[1..], b[1..], rest);
    }
  }

  lemma TailIsKeyList(a: seq<string>, values: map<string, string>)
    requires a != [] && IsKeyList(a, values) && IsSorted(a)
    ensures IsKeyList(a[1..], values - {a[0]}) && IsSorted(a[1..])
  {
  }

  lemma NextLine(text: string, keys: seq<string>, i: nat, values: map<string, string>)
    requires i < |keys| && forall k :: k in keys ==> k in values
    ensures text + EnvText(keys[i..], values) ==
            text + Line(keys[i], values[keys[i]]) + EnvText(keys[i + 1..], values)
  {
    assert keys[i..][0] == keys[i] && keys[i..][1..] == keys[i + 1..];
    var line, rest := Line(keys[i], values[keys[i]]), EnvText(keys[i + 1..], values);
    assert EnvText(keys[i..], values) == line + rest;
    assert text + (line + rest) == (text + line) + rest;
  }

  /** writeEnv: the lines of the sorted keys.  Whoever reads the text, expanding or not, gets the map back under exactly
      the condition of the round trip. */
  method WriteEnv(values: map<string, string>) returns (text: string)
    ensures exists keys :: IsKeyList(keys, values) && IsSorted(keys) && text == EnvText(keys, values)
    ensures ReadsBackIff(text, values, false) && ReadsBackIff(text, values, true)
  {
    hide EnvText, ReadEnv, IsCleanKey, IsPlain;
    var sorted := SortedKeys(values);
    text := WriteLines(sorted, values);
    EnvRoundTripIff(sorted, values, false);
    EnvRoundTripIff(sorted, values, true);
  }

  method WriteLines(keys: seq<string>, values: map<string, string>) returns (text: string)
    requires forall k :: k in keys ==> k in values
    ensures text == EnvText(keys, values)
  {
    hide Line;
    text := "";
    for i := 0 to |keys|
      invariant text + EnvText(keys[i..], values) == EnvText(keys, values)
    {
      NextLine(text, keys, i, values);
      text := text + Line(keys[i], values[keys[i]]);
    }
    assert keys[|keys|..] == [];
  }

  ghost predicate ReadsBackIff(text: string, values: map<string, string>, expands: bool) {
    ReadEnv(text, expands) == Some(values) <==> forall k :: k in values ==> IsCleanKey(k) && IsPlain(values[k], expands)
  }
}
