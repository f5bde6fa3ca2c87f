/** shellQuote against the quoting rules of the shell. */
module ShellWords {
  import opened Options
  import opened Text
  import opened EnvFiles

  /** Single quotes around the value; a single quote in it stands between double quotes, outside the others. */
  function ShellQuote(value: string): string {
    "'" + ReplaceAll(value, '\'', "'\"'\"'") + "'"
  }

  /** The value of a word that consists of quoted parts only, by sections 2.2.2 and 2.2.3 of the POSIX Shell Command
      Language: nothing is special between single quotes; None for a word with anything outside quotes or
      with an expansion. */
  function WordValue(word: string): Option<string>
    decreases |word|
  {
    if word == "" then Some("")
    else if word[0] == '\'' then
      var i := Find(word[1..], '\'');
      if i == |word| - 1 then None
      else
        match WordValue(word[i + 2..])
        case None => None
        case Some(rest) => Some(word[1..i + 1] + rest)
    else if word[0] == '"' then
      match ReadQuoted(word[1..], true)
      case None => None
      case Some((value, tail)) =>
        ReadShrinks(word[1..], true);
        match WordValue(tail)
        case None => None
        case Some(rest) => Some(value + rest)
    else None
  }

  lemma SingleQuoted(value: string, tail: string)
    requires '\'' !in value
    ensures WordValue("'" + value + "'" + tail) ==
            match WordValue(tail) case None => None case Some(rest) => Some(value + rest)
  {
    var word := "'" + value + "'" + tail;
    assert word[1..] == value + "'" + tail;
    assert word[1..][|value|] == '\'' && forall j :: 0 <= j < |value| ==> word[1..][j] == value[j];
    assert Find(word[1..], '\'') == |value|;
    assert word[1..|value| + 1] == value && word[|value| + 2..] == tail;
  }

  lemma DoubleQuotedQuote(tail: string)
    ensures WordValue("\"'\"" + tail) == match WordValue(tail) case None => None case Some(rest) => Some("'" + rest)
  {
    var word := "\"'\"" + tail;
    assert "'"[1..] == "" && Escape("'") == EscapeChar('\'') + "";
    assert word[1..] == Escape("'") + "\"" + tail;
    QuotedIsReadBackIff("'", tail, true);
  }

  lemma {:induction false} ReplaceAllKeeps(value: string, c: char, replacement: string)
    requires c !in value
    ensures ReplaceAll(value, c, replacement) == value
  {
    if value != "" {
      assert value == [value[0]] + value[1..];
      ReplaceAllKeeps(value[1..], c, replacement);
    }
  }

  /** The shell reads back exactly the value that was quoted, for every value. */
  lemma {:induction false} QuotedWordIsTheValue(value: string)
    ensures WordValue(ShellQuote(value)) == Some(value)
    decreases |value|
  {
    hide ShellQuote, WordValue;
    var i := Find(value, '\'');
    var head := value[..i];
    if i == |value| {
      QuotedPlainText(value);
    } else {
      var tail := value[i + 1..];
      QuotedWordIsTheValue(tail);
      QuotedAroundQuote(head, tail);
      assert value == head + "'" + tail;
    }
  }

  lemma QuotedPlainText(value: string)
    requires '\'' !in value
    ensures WordValue(ShellQuote(value)) == Some(value)
  {
    ReplaceAllKeeps(value, '\'', "'\"'\"'");
    assert ShellQuote(value) == "'" + value + "'" + "";
    SingleQuoted(value, "");
    assert value + "" == value;
  }

  lemma QuotedAroundQuote(head: string, tail: string)
    requires '\'' !in head && WordValue(ShellQuote(tail)) == Some(tail)
    ensures WordValue(ShellQuote(head + "'" + tail)) == Some(head + "'" + tail)
  {
    hide ShellQuote, WordValue;
    QuoteOfQuote(head, tail);
    SingleQuoted(head, "\"'\"" + ShellQuote(tail));
    DoubleQuotedQuote(ShellQuote(tail));
    assert head + ("'" + tail) == head + "'" + tail;
  }

  lemma QuoteOfQuote(head: string, tail: string)
    requires '\'' !in head
    ensures ShellQuote(head + "'" + tail) == "'" + head + "'" + ("\"'\"" + ShellQuote(tail))
  {
    var q := "'\"'\"'";
    var quoted := ReplaceAll(tail, '\'', q);
    ReplaceAllKeeps(head, '\'', q);
    ReplaceAllConcat(head + "'", tail, '\'', q);
    ReplaceAllConcat(head, "'", '\'', q);
    ReplaceOne('\'', '\'', q);
    QuotedParts(head, quoted);
  }

  lemma QuotedParts(head: string, quoted: string)
    ensures "'" + (head + "'\"'\"'" + quoted) + "'" == "'" + head + "'" + ("\"'\"" + ("'" + quoted + "'"))
  {
  }
}
