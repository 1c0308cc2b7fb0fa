/** The command line sent to the remote shell, and how a POSIX shell takes it apart. */
module Shell {
  import opened Text

  const SECOND := 1_000_000_000
  const MILLISECOND := 1_000_000
  const REMOTE_KILL_AFTER_SECONDS: nat := 5

  // ---------------------------------------------------------------- the reader

  /** Characters that mean something to the shell when they stand unquoted (section 2.2 of XCU in
      IEEE Std 1003.1), other than blanks, the backslash and the single quote. */
  predicate IsSpecial(c: char) {
    c in ['|', '&', ';', '<', '>', '(', ')', '$', '`', '"', '\n', '*', '?', '[', '#', '~', '=', '%']
  }

  predicate IsBlank(c: char) {
    c == ' ' || c == '\t'
  }

  /** The words of a line: blanks separate them (2.3), a backslash keeps the next character and
      drops a newline (2.2.1), and single quotes keep everything between them (2.2.2). None when a
      quote stays open or a special character stands unquoted. `word` is the word being read. */
  function Words(line: string, word: Option<string>): Option<seq<string>>
    decreases |line|
  {
    if line == "" then Some(if word.Some? then [word.value] else [])
    else
      var c, rest := line[0], line[1..];
      if IsBlank(c) then
        if word.None? then Words(rest, None)
        else match Words(rest, None)
          case None => None
          case Some(words) => Some([word.value] + words)
      else if c == '\'' then Quoted(rest, SoFar(word))
      else if c == '\\' then
        if rest == "" then None
        else if rest[0] == '\n' then Words(rest[1..], word)
        else Words(rest[1..], Some(SoFar(word) + [rest[0]]))
      else if IsSpecial(c) then None
      else Words(rest, Some(SoFar(word) + [c]))
  }

  function SoFar(word: Option<string>): string {
    if word.Some? then word.value else ""
  }

  /** Between single quotes. */
  function Quoted(line: string, word: string): Option<seq<string>>
    decreases |line|
  {
    if line == "" then None
    else if line[0] == '\'' then Words(line[1..], Some(word))
    else Quoted(line[1..], word + [line[0]])
  }

  /** None of the characters with a meaning of their own is taken unquoted. */
  lemma UnquotedIsRejected(c: char, rest: string, word: Option<string>)
    requires c in "|&;<>()$`\"\n*?[#~=%"
    ensures Words([c] + rest, word) == None
  {
    assert ([c] + rest)[0] == c;
  }

  // ---------------------------------------------------------------- the writer

  /** strings.ReplaceAll of every single quote: close, escaped quote, open again. */
  function EscapeQuotes(text: string): string {
    if text == "" then ""
    else (if text[0] == '\'' then "'\\''" else [text[0]]) + EscapeQuotes(text[1..])
  }

  function ShellQuote(text: string): string {
    "'" + EscapeQuotes(text) + "'"
  }

  /** Go's integer division, which truncates toward zero, and its remainder. */
  function Quotient(n: int, d: nat): int
    requires d > 0
  {
    if n >= 0 then n / d else -(-n / d)
  }

  function Remainder(n: int, d: nat): int
    requires d > 0
  {
    n - Quotient(n, d) * d
  }

  /** Whole seconds for `timeout`: the least number, but at least one, that is no shorter. */
  function TimeoutSeconds(timeout: int): (seconds: nat)
    ensures seconds >= 1 && timeout <= seconds * SECOND
    ensures seconds > 1 ==> (seconds - 1) * SECOND < timeout
  {
    var whole := Quotient(timeout, SECOND);
    var up := if Remainder(timeout, SECOND) != 0 then whole + 1 else whole;
    if up < 1 then 1 else up
  }

  function WrapCommand(command: string, timeout: int): string {
    "timeout -k " + Itoa(REMOTE_KILL_AFTER_SECONDS) + " " + Itoa(TimeoutSeconds(timeout)) + " sh -c " + ShellQuote(command)
  }

  // ---------------------------------------------------------------- reading what was written

  /** Inside the quotes, the escaped text is read back and the quote that ends it is found. */
  lemma {:induction false} QuotedReads(text: string, rest: string, word: string)
    ensures Quoted(EscapeQuotes(text) + "'" + rest, word) == Words(rest, Some(word + text))
    decreases text
  {
    if text == "" {
      assert EscapeQuotes(text) + "'" + rest == "'" + rest;
      assert word + text == word;
    } else {
      var tail := EscapeQuotes(text[1..]) + "'" + rest;
      var next := word + [text[0]];
      assert word + text == next + text[1..];
      if text[0] == '\'' {
        EscapedQuoteReads(tail, word);
        assert EscapeQuotes(text) + "'" + rest == "'\\''" + tail;
      } else {
        var line := EscapeQuotes(text) + "'" + rest;
        assert line == [text[0]] + tail;
        assert line[1..] == tail;
      }
      QuotedReads(text[1..], rest, next);
    }
  }

  /** The four characters that stand for one quote. */
  lemma EscapedQuoteReads(tail: string, word: string)
    ensures Quoted("'\\''" + tail, word) == Quoted(tail, word + "'")
  {
    var line := "'\\''" + tail;
    assert line[1..] == "\\''" + tail;
    assert ("\\''" + tail)[1..] == "''" + tail;
    assert ("''" + tail)[1..] == "'" + tail;
    assert ("'" + tail)[1..] == tail;
    assert Words("'" + tail, Some(word + "'")) == Quoted(tail, word + "'");
  }

  /** Plain characters are read as they stand. */
  predicate IsPlain(c: char) {
    !IsBlank(c) && !IsSpecial(c) && c != '\'' && c != '\\'
  }

  lemma {:induction false} PlainReads(plain: string, rest: string, word: Option<string>)
    requires forall c | c in plain :: IsPlain(c)
    requires plain != ""
    ensures Words(plain + rest, word) == Words(rest, Some(SoFar(word) + plain))
    decreases plain
  {
    var line, first := plain + rest, [plain[0]];
    assert line[1..] == plain[1..] + rest;
    assert plain[0] in plain;
    if |plain| == 1 {
      assert plain[1..] + rest == rest;
      assert plain == first;
    } else {
      PlainReads(plain[1..], rest, Some(SoFar(word) + first));
      assert SoFar(word) + first + plain[1..] == SoFar(word) + plain;
    }
  }

  /** A plain word followed by a space is read as one word. */
  lemma PlainWordReads(plain: string, rest: string)
    requires forall c | c in plain :: IsPlain(c)
    requires plain != ""
    ensures Words(plain + " " + rest, None) ==
            match Words(rest, None) case None => None case Some(words) => Some([plain] + words)
  {
    PlainReads(plain, " " + rest, None);
    assert plain + " " + rest == plain + (" " + rest);
    assert (" " + rest)[1..] == rest;
    assert "" + plain == plain;
  }

  /** Quoted text is one word, the text itself, character for character. */
  lemma QuoteReads(text: string)
    ensures Words(ShellQuote(text), None) == Some([text])
  {
    var line := ShellQuote(text);
    assert line[1..] == EscapeQuotes(text) + "'" + "";
    QuotedReads(text, "", "");
    assert "" + text == text;
  }

  lemma QuoteIsInjective(a: string, b: string)
    requires ShellQuote(a) == ShellQuote(b)
    ensures a == b
  {
    QuoteReads(a);
    QuoteReads(b);
    assert Some([a]).value[0] == Some([b]).value[0];
  }

  predicate PlainWord(w: string) {
    w != "" && forall c | c in w :: IsPlain(c)
  }

  /** Words in front of a tail, each followed by one space. */
  function Spaced(words: seq<string>, tail: string): string {
    if words == [] then tail else words[0] + " " + Spaced(words[1..], tail)
  }

  lemma {:induction false} SpacedReads(words: seq<string>, tail: string)
    requires forall i | 0 <= i < |words| :: PlainWord(words[i])
    ensures Words(Spaced(words, tail), None) ==
            match Words(tail, None) case None => None case Some(more) => Some(words + more)
    decreases words
  {
    if words == [] {
      assert Words(tail, None).Some? ==> words + Words(tail, None).value == Words(tail, None).value;
    } else {
      SpacedReads(words[1..], tail);
      PlainWordReads(words[0], Spaced(words[1..], tail));
      assert Words(tail, None).Some? ==>
          [words[0]] + (words[1..] + Words(tail, None).value) == words + Words(tail, None).value;
    }
  }

  /** The words in front of the command. */
  function Wrapper(timeout: int): seq<string> {
    ["timeout", "-k", Itoa(REMOTE_KILL_AFTER_SECONDS), Itoa(TimeoutSeconds(timeout)), "sh", "-c"]
  }

  predicate IsSafe(c: char) {
    'a' <= c <= 'z' || IsDigit(c) || c == '-'
  }

  lemma SafeIsPlain(s: string)
    requires s != "" && forall i | 0 <= i < |s| :: IsSafe(s[i])
    ensures PlainWord(s)
  {
    forall c | IsSafe(c) ensures IsPlain(c) {
    }
  }

  lemma WrapperIsPlain(timeout: int)
    ensures forall i | 0 <= i < |Wrapper(timeout)| :: PlainWord(Wrapper(timeout)[i])
  {
    SafeIsPlain("timeout");
    SafeIsPlain("-k");
    SafeIsPlain(Itoa(REMOTE_KILL_AFTER_SECONDS));
    SafeIsPlain(Itoa(TimeoutSeconds(timeout)));
    SafeIsPlain("sh");
    SafeIsPlain("-c");
  }

  lemma WrapIsSpaced(command: string, timeout: int)
    ensures WrapCommand(command, timeout) == Spaced(Wrapper(timeout), ShellQuote(command))
  {
    var q, kill, seconds := ShellQuote(command), Itoa(REMOTE_KILL_AFTER_SECONDS), Itoa(TimeoutSeconds(timeout));
    SpacedCons("-c", [], q);
    SpacedCons("sh", ["-c"], q);
    SpacedCons(seconds, ["sh", "-c"], q);
    SpacedCons(kill, [seconds, "sh", "-c"], q);
    SpacedCons("-k", [kill, seconds, "sh", "-c"], q);
    SpacedCons("timeout", ["-k", kill, seconds, "sh", "-c"], q);
  }

  lemma SpacedCons(first: string, rest: seq<string>, tail: string)
    ensures Spaced([first] + rest, tail) == first + " " + Spaced(rest, tail)
  {
    assert ([first] + rest)[1..] == rest;
  }

  /** The shell reads the wrapped command as seven words without any unquoted special character;
      the third and fourth are the two numbers of seconds and the last is the command as it was
      given. */
  lemma WrappedReads(command: string, timeout: int)
    requires timeout <= MAX_INT64
    ensures Words(WrapCommand(command, timeout), None) ==
            Some(["timeout", "-k", Itoa(REMOTE_KILL_AFTER_SECONDS), Itoa(TimeoutSeconds(timeout)), "sh", "-c", command])
    ensures Atoi(Itoa(REMOTE_KILL_AFTER_SECONDS)) == Some(REMOTE_KILL_AFTER_SECONDS)
    ensures Atoi(Itoa(TimeoutSeconds(timeout))) == Some(TimeoutSeconds(timeout))
  {
    WrapIsSpaced(command, timeout);
    WrapperIsPlain(timeout);
    SpacedReads(Wrapper(timeout), ShellQuote(command));
    assert Wrapper(timeout) + [command] ==
           ["timeout", "-k", Itoa(REMOTE_KILL_AFTER_SECONDS), Itoa(TimeoutSeconds(timeout)), "sh", "-c", command];
    QuoteReads(command);
    AtoiOfItoa(REMOTE_KILL_AFTER_SECONDS);
    AtoiOfItoa(TimeoutSeconds(timeout));
  }

  /** Two commands are wrapped alike only when they are the same command. */
  lemma WrapIsInjective(a: string, b: string, timeout: int, other: int)
    requires timeout <= MAX_INT64 && other <= MAX_INT64
    requires WrapCommand(a, timeout) == WrapCommand(b, other)
    ensures a == b && TimeoutSeconds(timeout) == TimeoutSeconds(other)
  {
    WrappedReads(a, timeout);
    WrappedReads(b, other);
    var words := Words(WrapCommand(a, timeout), None).value;
    assert words[6] == a && words[6] == b;
    assert words[3] == Itoa(TimeoutSeconds(timeout)) && words[3] == Itoa(TimeoutSeconds(other));
  }
}
