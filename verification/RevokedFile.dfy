/** The file of revoked client ids: one id a line, blank lines and comment lines ignored.  The
    signer and the console both read it line by line; both add an id by appending a line, and the
    console removes one by rewriting the file. */
module RevokedFiles {
  import opened Text

  function DropCR(line: string): string {
    if line != "" && line[|line| - 1] == '\r' then line[..|line| - 1] else line
  }

  /** The id a line names, if any: what is left without blanks at either end, unless that is nothing
      or a comment. */
  function LineIds(line: string): (ids: seq<string>)
    ensures |ids| <= 1
    decreases |line|
  {
    if line == "" then []
    else if IsSpace(line[0]) then LineIds(line[1..])
    else if IsSpace(line[|line| - 1]) then LineIds(line[..|line| - 1])
    else if line[0] == '#' then []
    else [line]
  }

  /** The lines of a text; a last line without a newline counts, too. */
  function Lines(text: string): seq<string>
    decreases |text|
  {
    if text == "" then []
    else
      var i := Find(text, '\n');
      if i == |text| then [text] else [text[..i]] + Lines(text[i + 1..])
  }

  function IdsOf(lines: seq<string>): seq<string> {
    if lines == [] then [] else LineIds(lines[0]) + IdsOf(lines[1..])
  }

  /** The ids of a text, in order. */
  function Parse(text: string): seq<string> {
    IdsOf(Lines(text))
  }

  function SetOf(ids: seq<string>): set<string> {
    set id | id in ids
  }

  function Ids(text: string): set<string> {
    SetOf(Parse(text))
  }

  function Without(ids: seq<string>, id: string): seq<string> {
    if ids == [] then []
    else if ids[0] == id then Without(ids[1..], id)
    else [ids[0]] + Without(ids[1..], id)
  }

  /** strings.Join with newlines. */
  function Join(ids: seq<string>): string {
    if ids == [] then "" else if |ids| == 1 then ids[0] else ids[0] + "\n" + Join(ids[1..])
  }

  function Appended(text: string, id: string): string {
    if id in Parse(text) then text else text + id + "\n"
  }

  function Removed(text: string, id: string): string {
    Join(Without(Parse(text), id)) + "\n"
  }

  // ---------------------------------------------------------------- lines

  /** A string that a line can name. */
  predicate IsEntry(id: string) {
    id != "" && !IsSpace(id[0]) && !IsSpace(id[|id| - 1]) && id[0] != '#' && '\n' !in id
  }

  /** What follows the last newline. */
  function LastLine(text: string): (line: string)
    ensures '\n' !in line
    ensures |line| <= |text| && line == text[|text| - |line|..]
    ensures |line| < |text| ==> text[|text| - |line| - 1] == '\n'
  {
    if text == "" || text[|text| - 1] == '\n' then ""
    else LastLine(text[..|text| - 1]) + [text[|text| - 1]]
  }

  predicate IsBlank(line: string) {
    forall c :: c in line ==> IsSpace(c)
  }

  predicate IsTerminated(text: string) {
    text == "" || text[|text| - 1] == '\n'
  }

  /** The code's steps on one line, in their order: the scanner drops a carriage return, then the
      rest is trimmed, then empty lines and comments are skipped. */
  lemma LineIdsIsTrimmed(line: string)
    ensures var id := Trim(DropCR(line));
            LineIds(line) == if id != "" && !HasPrefix(id, "#") then [id] else []
  {
    if line != "" && line[|line| - 1] == '\r' {
      DroppedEndIsBlank(line);
    }
    LineIdsByTrim(DropCR(line));
  }

  lemma {:induction false} DroppedEndIsBlank(line: string)
    requires line != "" && IsSpace(line[|line| - 1])
    ensures LineIds(line) == LineIds(line[..|line| - 1])
    decreases |line|
  {
    if IsSpace(line[0]) && |line| > 1 {
      DroppedEndIsBlank(line[1..]);
      assert line[1..][..|line| - 2] == line[..|line| - 1][1..];
    }
  }

  lemma {:induction false} LineIdsByTrim(line: string)
    ensures LineIds(line) == var id := Trim(line); if id != "" && !HasPrefix(id, "#") then [id] else []
    decreases |line|
  {
    if line == "" {
    } else if IsSpace(line[0]) {
      LineIdsByTrim(line[1..]);
    } else if IsSpace(line[|line| - 1]) {
      LineIdsByTrim(line[..|line| - 1]);
    } else {
      assert Trim(line) == line;
      assert HasPrefix(line, "#") <==> line[0] == '#';
    }
  }

  predicate NoNewlines(lines: seq<string>) {
    lines == [] || ('\n' !in lines[0] && NoNewlines(lines[1..]))
  }

  lemma {:induction false} LinesHoldNoNewline(text: string)
    ensures NoNewlines(Lines(text))
    decreases |text|
  {
    if text != "" {
      var i := Find(text, '\n');
      BeforeFirst(text, '\n');
      if i < |text| {
        LinesHoldNoNewline(text[i + 1..]);
        OneMoreLine(text[..i], Lines(text[i + 1..]));
      } else {
        assert text[..i] == text;
        OneMoreLine(text, []);
      }
    }
  }

  lemma BeforeFirst(s: string, c: char)
    ensures c !in s[..Find(s, c)]
  {
  }

  lemma OneMoreLine(line: string, rest: seq<string>)
    requires '\n' !in line && NoNewlines(rest)
    ensures NoNewlines([line] + rest)
  {
    assert ([line] + rest)[1..] == rest;
  }

  lemma {:induction false} IdsOfAreEntries(lines: seq<string>)
    requires NoNewlines(lines)
    ensures forall id :: id in IdsOf(lines) ==> IsEntry(id)
  {
    if lines != [] {
      LineNamesEntry(lines[0]);
      IdsOfAreEntries(lines[1..]);
    }
  }

  lemma {:induction false} LineNamesEntry(line: string)
    requires '\n' !in line
    ensures forall id :: id in LineIds(line) ==> IsEntry(id)
    decreases |line|
  {
    if line == "" {
    } else if IsSpace(line[0]) {
      LineNamesEntry(line[1..]);
    } else if IsSpace(line[|line| - 1]) {
      LineNamesEntry(line[..|line| - 1]);
    }
  }

  lemma ParsedAreEntries(text: string)
    ensures forall id :: id in Parse(text) ==> IsEntry(id)
  {
    LinesHoldNoNewline(text);
    IdsOfAreEntries(Lines(text));
  }

  lemma FindFirst(s: string, c: char, i: nat)
    requires i < |s| && s[i] == c && forall j :: 0 <= j < i ==> s[j] != c
    ensures Find(s, c) == i
  {
  }

  lemma {:induction false} LinesConcat(a: string, b: string)
    requires IsTerminated(a)
    ensures Lines(a + b) == Lines(a) + Lines(b)
    decreases |a|
  {
    if a == "" {
      assert a + b == b;
    } else {
      var i := Find(a, '\n');
      var line, rest := a[..i], a[i + 1..];
      assert i < |a|;
      FindFirst(a + b, '\n', i);
      assert (a + b)[..i] == line && (a + b)[i + 1..] == rest + b;
      LinesConcat(rest, b);
      assert Lines(a) == [line] + Lines(rest) && Lines(a + b) == [line] + Lines(rest + b);
      Associates(line, Lines(rest), Lines(b));
    }
  }

  lemma Associates(x: string, a: seq<string>, b: seq<string>)
    ensures [x] + (a + b) == ([x] + a) + b
  {
  }

  lemma {:induction false} IdsOfConcat(a: seq<string>, b: seq<string>)
    ensures IdsOf(a + b) == IdsOf(a) + IdsOf(b)
  {
    if a == [] {
      assert a + b == b;
    } else {
      assert (a + b)[1..] == a[1..] + b;
      IdsOfConcat(a[1..], b);
    }
  }

  lemma ParseConcat(a: string, b: string)
    requires IsTerminated(a)
    ensures Parse(a + b) == Parse(a) + Parse(b)
  {
    LinesConcat(a, b);
    IdsOfConcat(Lines(a), Lines(b));
  }

  lemma ParseTerminated(line: string)
    requires '\n' !in line
    ensures Parse(line + "\n") == LineIds(line)
  {
    var text := line + "\n";
    FindFirst(text, '\n', |line|);
    assert text[..|line|] == line && text[|line| + 1..] == "";
    assert Lines(text) == [line];
    assert IdsOf([line]) == LineIds(line) + IdsOf([]);
  }

  lemma ParseLine(line: string)
    requires '\n' !in line
    ensures Parse(line) == LineIds(line)
  {
    if line != "" {
      assert Lines(line) == [line];
      assert IdsOf([line]) == LineIds(line) + IdsOf([]);
    } else {
      BlankNamesNothing("");
    }
  }

  /** A text is what its terminated lines hold, then what its last line holds. */
  lemma ParseByLastLine(text: string, more: string)
    requires '\n' !in more
    ensures var line := LastLine(text);
            var head := text[..|text| - |line|];
            && Parse(text) == Parse(head) + LineIds(line)
            && Parse(text + more + "\n") == Parse(head) + LineIds(line + more)
  {
    var line := LastLine(text);
    var head := text[..|text| - |line|];
    assert text == head + line && IsTerminated(head);
    ParseConcat(head, line);
    ParseLine(line);
    assert text + more + "\n" == head + (line + more + "\n");
    ParseConcat(head, line + more + "\n");
    ParseTerminated(line + more);
  }

  lemma {:induction false} BlankNamesNothing(line: string)
    requires IsBlank(line)
    ensures LineIds(line) == []
  {
    if line != "" {
      BlankNamesNothing(line[1..]);
    }
  }

  /** An entry is read back from a line exactly when only blanks stand before it. */
  lemma {:induction false} EntryAfter(line: string, id: string)
    requires IsEntry(id)
    ensures LineIds(line + id) == [id] <==> IsBlank(line)
  {
    var s := line + id;
    if line == "" {
      assert s == id;
    } else {
      assert s[0] == line[0] && s[|s| - 1] == id[|id| - 1];
      if IsSpace(line[0]) {
        assert s[1..] == line[1..] + id;
        EntryAfter(line[1..], id);
        assert line == [line[0]] + line[1..];
      } else {
        assert |s| > |id| && !IsBlank(line);
      }
    }
  }

  // ---------------------------------------------------------------- append

  /** After an append of a new id, the id is read back exactly when it is a proper entry and
      nothing but blanks follows the last newline of the file. */
  lemma AppendedIdIsReadIff(text: string, id: string)
    requires id !in Ids(text)
    ensures id in Ids(text + id + "\n") <==> IsEntry(id) && IsBlank(LastLine(text))
  {
    if IsEntry(id) {
      NewIdComesFromLastLine(text, id);
      EntryAfter(LastLine(text), id);
    } else {
      ParsedAreEntries(text + id + "\n");
    }
  }

  lemma NewIdComesFromLastLine(text: string, id: string)
    requires id !in Ids(text) && '\n' !in id
    ensures id in Ids(text + id + "\n") <==> LineIds(LastLine(text) + id) == [id]
  {
    var line := LastLine(text);
    var head := Parse(text[..|text| - |line|]);
    ParseByLastLine(text, id);
    InConcat(head, LineIds(line), id);
    InConcat(head, LineIds(line + id), id);
    InShort(LineIds(line + id), id);
  }

  lemma InConcat(a: seq<string>, b: seq<string>, x: string)
    ensures x in a + b <==> x in a || x in b
  {
  }

  lemma InShort(a: seq<string>, x: string)
    requires |a| <= 1
    ensures x in a <==> a == [x]
  {
  }

  /** Appending adds the id and nothing else, for every text and every id, if and only if the id is
      there already, or is a proper entry and the file's last line is blank. */
  lemma AppendAddsIff(text: string, id: string)
    ensures Ids(Appended(text, id)) == Ids(text) + {id}
            <==> id in Ids(text) || (IsEntry(id) && IsBlank(LastLine(text)))
  {
    if id !in Ids(text) {
      AppendedIdIsReadIff(text, id);
      if IsEntry(id) && IsBlank(LastLine(text)) {
        AppendToBlankLine(text, id);
      }
    }
  }

  lemma AppendToBlankLine(text: string, id: string)
    requires IsEntry(id) && IsBlank(LastLine(text))
    ensures Parse(text + id + "\n") == Parse(text) + [id]
  {
    var line := LastLine(text);
    EntryAfter(line, id);
    hide Parse, LineIds, LastLine, IsBlank;
    ParseByLastLine(text, id);
    BlankNamesNothing(line);
    OneMoreAtTheEnd(Parse(text[..|text| - |line|]), LineIds(line), LineIds(line + id), id);
  }

  lemma OneMoreAtTheEnd(head: seq<string>, before: seq<string>, after: seq<string>, id: string)
    requires before == [] && after == [id]
    ensures head + after == head + before + [id]
  {
  }

  // ---------------------------------------------------------------- remove

  lemma NothingIsBlank()
    ensures IsBlank("")
  {
  }

  lemma {:induction false} ParseJoined(ids: seq<string>)
    requires forall id :: id in ids ==> IsEntry(id)
    ensures Parse(Join(ids) + "\n") == ids
  {
    hide Parse, LineIds, IsBlank;
    NothingIsBlank();
    if ids == [] {
      ParseTerminated("");
      BlankNamesNothing("");
      assert "" + "\n" == "\n";
    } else {
      assert IsEntry(ids[0]);
      EntryAfter("", ids[0]);
      assert "" + ids[0] == ids[0];
      ParseTerminated(ids[0]);
      if |ids| > 1 {
        assert Join(ids) + "\n" == (ids[0] + "\n") + (Join(ids[1..]) + "\n");
        ParseConcat(ids[0] + "\n", Join(ids[1..]) + "\n");
        ParseJoined(ids[1..]);
      } else {
        assert ids == [ids[0]];
      }
    }
  }

  lemma {:induction false} WithoutKeepsRest(ids: seq<string>, id: string)
    ensures forall x :: x in Without(ids, id) <==> x in ids && x != id
  {
    if ids != [] {
      WithoutKeepsRest(ids[1..], id);
    }
  }

  /** ... in their order: what is left of a list is what is left of its parts. */
  lemma {:induction false} WithoutKeepsOrder(a: seq<string>, b: seq<string>, id: string, x: string)
    ensures Without(a + b, id) == Without(a, id) + Without(b, id)
    ensures Without([x], id) == if x == id then [] else [x]
  {
    assert Without([x][1..], id) == [];
    if a == [] {
      assert a + b == b;
    } else {
      assert (a + b)[1..] == a[1..] + b;
      WithoutKeepsOrder(a[1..], b, id, x);
    }
  }

  /** Removing leaves exactly the other ids, in their order, whatever the file looked like: comments
      and blanks are dropped, and an empty list becomes a lone newline that reads as empty. */
  lemma RemoveKeepsTheRest(text: string, id: string)
    ensures Parse(Removed(text, id)) == Without(Parse(text), id)
    ensures Ids(Removed(text, id)) == Ids(text) - {id}
    ensures IsTerminated(Removed(text, id))
  {
    ParsedAreEntries(text);
    WithoutKeepsRest(Parse(text), id);
    ParseJoined(Without(Parse(text), id));
  }

  // ---------------------------------------------------------------- the signer's appends

  /** The in-memory set and the file, as the signer keeps them side by side. */
  datatype Ledger = Ledger(revoked: set<string>, text: string)

  function Revoke(l: Ledger, id: string): Ledger {
    if id in l.revoked then l else Ledger(l.revoked + {id}, l.text + id + "\n")
  }

  function RevokeAll(l: Ledger, ids: seq<string>): Ledger {
    if ids == [] then l else Revoke(RevokeAll(l, ids[..|ids| - 1]), ids[|ids| - 1])
  }

  function Loaded(text: string): Ledger {
    Ledger(Ids(text), text)
  }

  lemma NewlineEndsBlank(text: string)
    ensures LastLine(text + "\n") == ""
  {
  }

  ghost predicate AllEntries(ids: set<string>) {
    forall id :: id in ids ==> IsEntry(id)
  }

  /** Nothing new was revoked, or the loaded file ends in a blank line and all ids are proper entries. */
  ghost predicate Restorable(text: string, revoked: set<string>) {
    revoked == Ids(text) || (IsBlank(LastLine(text)) && AllEntries(revoked))
  }

  lemma SetOfLast(ids: seq<string>)
    requires ids != []
    ensures SetOf(ids) == SetOf(ids[..|ids| - 1]) + {ids[|ids| - 1]}
  {
  }

  /** What holds of the in-memory set `revoked` and of the ids `read` from the file, at every moment of a run that started
      from the ids `base` in a file whose last line was `blank` or not. */
  ghost predicate Tracks(base: set<string>, blank: bool, revoked: set<string>, read: set<string>) {
    var restorable := revoked == base || (blank && AllEntries(revoked));
    base <= revoked && (read == revoked <==> restorable) && (revoked <= read <==> restorable)
  }

  ghost predicate Follows(text: string, l: Ledger) {
    && Tracks(Ids(text), IsBlank(LastLine(text)), l.revoked, Ids(l.text))
    && if l.revoked == Ids(text) then l.text == text else LastLine(l.text) == ""
  }

  lemma {:induction false} RunFollows(text: string, ids: seq<string>)
    ensures Follows(text, RevokeAll(Loaded(text), ids))
    ensures RevokeAll(Loaded(text), ids).revoked == Ids(text) + SetOf(ids)
  {
    if ids != [] {
      RunFollows(text, ids[..|ids| - 1]);
      SetOfLast(ids);
      RevokeStep(text, RevokeAll(Loaded(text), ids[..|ids| - 1]), ids[|ids| - 1]);
    }
  }

  /** Every run of successful appends, started from a loaded file, can be followed by a reload: the file
      then holds exactly the in-memory set if and only if nothing new was revoked, or the loaded file
      ended in a blank line and every id is a proper entry.  Otherwise it has lost an id. */
  lemma ReloadRestoresIff(text: string, ids: seq<string>)
    ensures var l := RevokeAll(Loaded(text), ids);
            && l.revoked == Ids(text) + SetOf(ids)
            && (Loaded(l.text) == l <==> Restorable(text, l.revoked))
            && (l.revoked <= Ids(l.text) <==> Restorable(text, l.revoked))
  {
    RunFollows(text, ids);
  }

  lemma RevokeStep(text: string, l: Ledger, id: string)
    requires Follows(text, l)
    ensures Follows(text, Revoke(l, id)) && Revoke(l, id).revoked == l.revoked + {id}
  {
    hide Ids, LastLine;
    WithOne(l.revoked, id);
    if id !in l.revoked {
      NewlineEndsBlank(l.text + id);
      NewIdTracks(text, l, id);
    }
  }

  lemma WithOne(s: set<string>, x: string)
    ensures x in s + {x} && s <= s + {x} && (x in s ==> s + {x} == s)
  {
  }

  lemma NewIdTracks(text: string, l: Ledger, id: string)
    requires Follows(text, l) && id !in l.revoked
    ensures Tracks(Ids(text), IsBlank(LastLine(text)), l.revoked + {id}, Ids(l.text + id + "\n"))
    ensures l.revoked + {id} != Ids(text)
  {
    hide Ids, LastLine;
    if IsBlank(LastLine(text)) && AllEntries(l.revoked + {id}) {
      RevokeStepKeeps(text, l, id);
    } else {
      RevokeStepLoses(text, l, id);
    }
    GrownTracks(Ids(text), IsBlank(LastLine(text)), l.revoked, id, Ids(l.text + id + "\n"));
  }

  /** When the set has grown, either everything is kept or something is lost. */
  lemma GrownTracks(base: set<string>, blank: bool, revoked: set<string>, id: string, read: set<string>)
    requires base <= revoked && id !in revoked
    requires if blank && AllEntries(revoked + {id}) then read == revoked + {id} else !(revoked + {id} <= read)
    ensures Tracks(base, blank, revoked + {id}, read) && revoked + {id} != base
  {
    assert id in revoked + {id} && id !in base;
  }

  lemma RevokeStepKeeps(text: string, l: Ledger, id: string)
    requires id !in l.revoked && (l.text == text || LastLine(l.text) == "")
    requires Ids(l.text) == l.revoked <==> Restorable(text, l.revoked)
    requires IsBlank(LastLine(text)) && AllEntries(l.revoked + {id})
    ensures Ids(l.text + id + "\n") == l.revoked + {id}
  {
    WithOne(l.revoked, id);
    AppendAddsIff(l.text, id);
  }

  lemma RevokeStepLoses(text: string, l: Ledger, id: string)
    requires id !in l.revoked && Ids(text) <= l.revoked
    requires if l.revoked == Ids(text) then l.text == text else LastLine(l.text) == ""
    requires l.revoked <= Ids(l.text) <==> Restorable(text, l.revoked)
    requires !IsBlank(LastLine(text)) || !AllEntries(l.revoked + {id})
    ensures !(l.revoked + {id} <= Ids(l.text + id + "\n"))
  {
    var after := l.text + id + "\n";
    WithOne(l.revoked, id);
    ParsedAreEntries(after);
    if !AllEntries(l.revoked + {id}) {
      var x :| x in l.revoked + {id} && !IsEntry(x);
      assert x !in Ids(after);
    } else if l.revoked == Ids(text) {
      AppendedIdIsReadIff(text, id);
    } else {
      assert !Restorable(text, l.revoked);
      var x :| x in l.revoked && x !in Ids(l.text);
      NothingElseIsRead(l.text, id, x);
    }
  }

  /** A proper entry after a newline is the only thing that is read in addition. */
  lemma NothingElseIsRead(text: string, id: string, x: string)
    requires IsEntry(id) && LastLine(text) == "" && x !in Ids(text) && x != id
    ensures x !in Ids(text + id + "\n")
  {
    AppendToBlankLine(text, id);
    InConcat(Parse(text), [id], x);
    InShort([id], x);
  }

  // ---------------------------------------------------------------- the file operations

  /** The file on disk; a missing file reads as an empty one. */
  class RevokedFile {
    var text: string

    constructor (text: string)
      ensures this.text == text
    {
      this.text := text;
    }

    /** Scan the lines from the top. */
    method Read() returns (ids: seq<string>)
      ensures ids == Parse(text)
    {
      ids := [];
      var rest := text;
      while rest != ""
        invariant ids + Parse(rest) == Parse(text)
        decreases |rest|
      {
        var i := Find(rest, '\n');
        var line := rest[..i];
        ghost var seen := rest;
        rest := if i == |rest| then "" else rest[i + 1..];
        ParseFirstLine(seen);
        var found := ReadLine(line);
        assert ids + (found + Parse(rest)) == (ids + found) + Parse(rest);
        ids := ids + found;
      }
    }

    static method ReadLine(line: string) returns (ids: seq<string>)
      ensures ids == LineIds(line)
    {
      LineIdsIsTrimmed(line);
      var id := Trim(DropCR(line));
      ids := if id != "" && !HasPrefix(id, "#") then [id] else [];
    }

    method Append(id: string)
      modifies this
      ensures text == Appended(old(text), id)
    {
      var current := Read();
      for i := 0 to |current|
        invariant id !in current[..i]
      {
        if current[i] == id {
          return;
        }
      }
      text := text + id + "\n";
    }

    method Remove(id: string)
      modifies this
      ensures text == Removed(old(text), id)
    {
      var current := Read();
      var next := [];
      assert current[0..] == current;
      for i := 0 to |current|
        invariant next + Without(current[i..], id) == Without(current, id)
      {
        assert current[i..][1..] == current[i + 1..];
        if current[i] != id {
          next := next + [current[i]];
        }
      }
      assert current[|current|..] == [] && next == Without(current, id);
      text := Join(next) + "\n";
    }
  }

  lemma ParseFirstLine(text: string)
    requires text != ""
    ensures var i := Find(text, '\n');
            Parse(text) == LineIds(text[..i]) + Parse(if i == |text| then "" else text[i + 1..])
  {
    hide Find, Lines, IdsOf, LineIds;
    var i := Find(text, '\n');
    var rest := if i == |text| then "" else text[i + 1..];
    LinesFromFirst(text);
    FirstLine(text[..i], Lines(rest));
  }

  lemma LinesFromFirst(text: string)
    requires text != ""
    ensures var i := Find(text, '\n');
            Lines(text) == [text[..i]] + Lines(if i == |text| then "" else text[i + 1..])
  {
    if Find(text, '\n') == |text| {
      assert text[..|text|] == text;
    }
  }

  lemma FirstLine(line: string, rest: seq<string>)
    ensures IdsOf([line] + rest) == LineIds(line) + IdsOf(rest)
  {
  }
}
