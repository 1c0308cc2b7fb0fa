/** Host blocks and what they mean: which settings apply to an alias, which one of them wins, and
    which aliases a list of blocks offers. */
module HostConfig {
  import opened Text
  import opened Glob

  const DEFAULT_PORT := "22"
  const SERVER_ALIVE_UNSET := -1

  /** The keywords the resolver knows; any other keeps its spelling, so nothing is confused. */
  datatype Keyword =
    | HostName | Port | User | IdentityFile | ProxyJump | ProxyCommand | ServerAliveInterval
    | Other(name: string)

  function KeywordOf(name: string): (k: Keyword)
  {
    match name
    case "hostname" => HostName
    case "port" => Port
    case "user" => User
    case "identityfile" => IdentityFile
    case "proxyjump" => ProxyJump
    case "proxycommand" => ProxyCommand
    case "serveraliveinterval" => ServerAliveInterval
    case _ => Other(name)
  }

  /** Counting keywords as taken is counting their names as taken. */
  lemma KeywordsDiffer(a: string, b: string)
    ensures KeywordOf(a) == KeywordOf(b) <==> a == b
  {
  }

  datatype Setting = Setting(keyword: Keyword, value: string)

  datatype Block = Block(patterns: seq<string>, directives: seq<Setting>)

  datatype SSHConfig = SSHConfig(
    host: string,
    hostName: string,
    port: string,
    user: string,
    identityFile: string,
    proxyJump: string,
    proxyCommand: string,
    serverAliveInterval: int)

  // ---------------------------------------------------------------- lines

  predicate IsComment(token: string) {
    token != "" && token[0] == '#'
  }

  /** How many tokens stand in front of the first one that begins a comment. */
  function BeforeComment(tokens: seq<string>): (n: nat)
    ensures n <= |tokens|
    ensures forall i | 0 <= i < n :: !IsComment(tokens[i])
    ensures n < |tokens| ==> IsComment(tokens[n])
  {
    if tokens == [] || IsComment(tokens[0]) then 0 else 1 + BeforeComment(tokens[1..])
  }

  /** A comment begins with the first token that has a number sign in front. */
  lemma CommentIs(tokens: seq<string>)
    ensures var n := BeforeComment(tokens);
            && (forall i | 0 <= i < n :: !("#" <= tokens[i]))
            && (n < |tokens| ==> "#" <= tokens[n])
  {
  }

  /** A keyword and a value, or None for a line without both. */
  function SplitDirective(line: string): Option<(string, string)> {
    var tokens := Fields(line);
    var end := BeforeComment(tokens);
    if end < 2 then None else Some((Lower(tokens[0]), Join(tokens[1..end])))
  }

  /** The value of a directive stands for exactly the tokens between its keyword and a comment:
      splitting it again, as Host and Include do, gives them back. */
  lemma DirectiveTokens(line: string)
    ensures var tokens := Fields(line); var end := BeforeComment(tokens);
            && (SplitDirective(line).None? <==> end < 2)
            && (end >= 2 ==>
                  && Fields(SplitDirective(line).value.1) == tokens[1..end]
                  && SplitDirective(line).value.0 == Lower(tokens[0]))
  {
    var tokens := Fields(line);
    var end := BeforeComment(tokens);
    if end >= 2 {
      FieldsOfJoin(tokens[1..end]);
    }
  }

  /** A keyword with one word after it. */
  lemma TwoWords(first: string, second: string)
    requires IsWord(first) && IsWord(second) && !IsComment(first) && !IsComment(second)
    ensures SplitDirective(first + " " + second) == Some((Lower(first), second))
    ensures Fields(second) == [second]
  {
    FieldsOfJoin([first, second]);
    FieldsOfJoin([second]);
    assert [first, second][1..] == [second];
    assert BeforeComment([second][1..]) == 0;
    DirectiveTokens(first + " " + second);
  }

  // ---------------------------------------------------------------- which blocks apply

  predicate Negated(pattern: string) {
    pattern != "" && pattern[0] == '!'
  }

  predicate Chosen(patterns: seq<string>, alias: string) {
    exists i | 0 <= i < |patterns| :: !Negated(patterns[i]) && PatternCovers(patterns[i], alias)
  }

  predicate Excluded(patterns: seq<string>, alias: string) {
    exists i | 0 <= i < |patterns| :: Negated(patterns[i]) && PatternCovers(patterns[i][1..], alias)
  }

  predicate Applies(patterns: seq<string>, alias: string) {
    Chosen(patterns, alias) && !Excluded(patterns, alias)
  }

  /** The pattern itself, unless it excludes or has wildcards. */
  function LiteralAlias(pattern: string): Option<string> {
    if pattern == "" || Negated(pattern) then None
    else if '*' in pattern || '?' in pattern then None
    else Some(pattern)
  }

  /** A pattern names one alias exactly when it is not empty, has no exclamation mark in front and no
      wildcard inside; the alias is the pattern. */
  lemma LiteralIs(pattern: string)
    ensures LiteralAlias(pattern) ==
            if pattern != "" && !("!" <= pattern) && '*' !in pattern && '?' !in pattern then Some(pattern) else None
  {
  }

  /** For every alias that is resolved, a Host line applies as ssh_config(5) says: some pattern of
      the line matches it and none with an exclamation mark in front does. */
  lemma AppliesByGlob(patterns: seq<string>, alias: string)
    requires '*' !in alias
    ensures Applies(patterns, alias) <==>
            && (exists i | 0 <= i < |patterns| ::
                  !("!" <= patterns[i]) && Matches(Lower(patterns[i]), Lower(alias)))
            && !(exists i | 0 <= i < |patterns| ::
                   "!" <= patterns[i] && Matches(Lower(patterns[i][1..]), Lower(alias)))
  {
    forall i | 0 <= i < |patterns|
      ensures Negated(patterns[i]) <==> "!" <= patterns[i]
      ensures PatternCovers(patterns[i], alias) == Matches(Lower(patterns[i]), Lower(alias))
      ensures Negated(patterns[i]) ==>
                PatternCovers(patterns[i][1..], alias) == Matches(Lower(patterns[i][1..]), Lower(alias))
    {
      CoversIsMatch(patterns[i], alias);
      if Negated(patterns[i]) {
        CoversIsMatch(patterns[i][1..], alias);
      }
    }
  }

  /** A literal alias is covered by itself, whatever its case, so a block that names it applies
      unless it also excludes it. */
  lemma LiteralCoversItself(alias: string, spelling: string)
    requires LiteralAlias(alias).Some? && Lower(alias) == Lower(spelling)
    ensures PatternCovers(alias, spelling)
  {
    var al := Lower(alias);
    LiteralGoesFirst(al, al, 0, |al|);
    assert al[|al|..] == "";
  }

  // ---------------------------------------------------------------- which setting wins

  /** Settings that reach the alias, in block order and line order. */
  function Applicable(blocks: seq<Block>, alias: string): seq<Setting> {
    if blocks == [] then []
    else (if Applies(blocks[0].patterns, alias) then blocks[0].directives else []) + Applicable(blocks[1..], alias)
  }

  predicate Understood(s: Setting) {
    match s.keyword
    case Other(_) => false
    case ServerAliveInterval => Atoi(s.value).Some?
    case _ => true
  }

  /** The setting gives the keyword a value. */
  predicate Gives(s: Setting, keyword: Keyword) {
    s.keyword == keyword && Understood(s)
  }

  /** The first value of the keyword that is understood. */
  function FirstValue(settings: seq<Setting>, keyword: Keyword): Option<string> {
    if settings == [] then None
    else if Gives(settings[0], keyword) then Some(settings[0].value)
    else FirstValue(settings[1..], keyword)
  }

  function Or<T>(value: Option<T>, default: T): T {
    if value.Some? then value.value else default
  }

  /** "ProxyCommand none" cancels a proxy. */
  function ProxyOf(value: string): string {
    if Lower(value) == "none" then "" else value
  }

  function ExpandTilde(home: string -> string, path: string): string {
    if path != "" && path[0] == '~' then home(path[1..]) else path
  }

  function Unset(alias: string): SSHConfig {
    SSHConfig(alias, "", DEFAULT_PORT, "", "", "", "", SERVER_ALIVE_UNSET)
  }

  /** One understood setting written into an entry. */
  function Assigned(home: string -> string, config: SSHConfig, s: Setting): SSHConfig {
    match s.keyword
    case HostName => config.(hostName := s.value)
    case Port => config.(port := s.value)
    case User => config.(user := s.value)
    case IdentityFile => config.(identityFile := ExpandTilde(home, s.value))
    case ProxyJump => config.(proxyJump := s.value)
    case ProxyCommand => config.(proxyCommand := ProxyOf(s.value))
    case ServerAliveInterval => config.(serverAliveInterval := Or(Atoi(s.value), SERVER_ALIVE_UNSET))
    case Other(_) => config
  }

  /** "First obtained value wins": every field holds the first understood value of its keyword, and
      its default when there is none. */
  function Configured(home: string -> string, alias: string, settings: seq<Setting>): SSHConfig {
    var identity := FirstValue(settings, IdentityFile);
    var proxy := FirstValue(settings, ProxyCommand);
    var interval := FirstValue(settings, ServerAliveInterval);
    SSHConfig(
      alias,
      Or(FirstValue(settings, HostName), ""),
      Or(FirstValue(settings, Port), DEFAULT_PORT),
      Or(FirstValue(settings, User), ""),
      if identity.Some? then ExpandTilde(home, identity.value) else "",
      Or(FirstValue(settings, ProxyJump), ""),
      if proxy.Some? then ProxyOf(proxy.value) else "",
      if interval.Some? then Or(Atoi(interval.value), SERVER_ALIVE_UNSET) else SERVER_ALIVE_UNSET)
  }

  function Resolved(home: string -> string, blocks: seq<Block>, alias: string): SSHConfig {
    Configured(home, alias, Applicable(blocks, alias))
  }

  lemma {:induction false} FirstValueOfConcat(s: seq<Setting>, t: seq<Setting>, keyword: Keyword)
    ensures FirstValue(s + t, keyword) ==
            if FirstValue(s, keyword).Some? then FirstValue(s, keyword) else FirstValue(t, keyword)
  {
    if s == [] {
      assert s + t == t;
    } else {
      assert (s + t)[1..] == s[1..] + t;
      FirstValueOfConcat(s[1..], t, keyword);
    }
  }

  lemma {:induction false} ApplicableOfConcat(b: seq<Block>, c: seq<Block>, alias: string)
    ensures Applicable(b + c, alias) == Applicable(b, alias) + Applicable(c, alias)
  {
    if b == [] {
      assert b + c == c;
    } else {
      assert (b + c)[1..] == b[1..] + c;
      ApplicableOfConcat(b[1..], c, alias);
    }
  }

  lemma FirstValueStep(done: seq<Setting>, s: Setting, keyword: Keyword)
    ensures FirstValue(done + [s], keyword) ==
            if FirstValue(done, keyword).Some? then FirstValue(done, keyword)
            else if Gives(s, keyword) then Some(s.value) else None
  {
    FirstValueOfConcat(done, [s], keyword);
    assert FirstValue([s][1..], keyword) == None;
  }

  lemma SameValuesSameConfig(home: string -> string, alias: string, s: seq<Setting>, t: seq<Setting>)
    requires forall keyword :: FirstValue(s, keyword) == FirstValue(t, keyword)
    ensures Configured(home, alias, s) == Configured(home, alias, t)
  {
  }

  lemma ConfiguredWrites(home: string -> string, alias: string, done: seq<Setting>, s: Setting)
    requires FirstValue(done, s.keyword).None? && Understood(s)
    ensures Configured(home, alias, done + [s]) == Assigned(home, Configured(home, alias, done), s)
  {
    forall keyword: Keyword
      ensures FirstValue(done + [s], keyword) ==
              if keyword == s.keyword then Some(s.value) else FirstValue(done, keyword)
    {
      FirstValueStep(done, s, keyword);
    }
  }

  /** One step of the resolver: a setting is written exactly when it is understood and its keyword
      has no value yet. */
  lemma ConfiguredStep(home: string -> string, alias: string, done: seq<Setting>, s: Setting)
    ensures Configured(home, alias, done + [s]) ==
            if FirstValue(done, s.keyword).None? && Understood(s)
            then Assigned(home, Configured(home, alias, done), s)
            else Configured(home, alias, done)
  {
    if FirstValue(done, s.keyword).None? && Understood(s) {
      ConfiguredWrites(home, alias, done, s);
    } else {
      forall keyword: Keyword ensures FirstValue(done + [s], keyword) == FirstValue(done, keyword) {
        FirstValueStep(done, s, keyword);
      }
      SameValuesSameConfig(home, alias, done + [s], done);
    }
  }

  lemma {:induction false} FirstValueIsUnderstood(settings: seq<Setting>, keyword: Keyword)
    ensures FirstValue(settings, keyword).Some? ==> Understood(Setting(keyword, FirstValue(settings, keyword).value))
  {
    if settings != [] {
      FirstValueIsUnderstood(settings[1..], keyword);
    }
  }

  /** What a field of the entry says about its keyword. */
  predicate FieldHolds(home: string -> string, config: SSHConfig, keyword: Keyword, value: Option<string>) {
    match keyword
    case HostName => config.hostName == Or(value, "")
    case Port => config.port == Or(value, "22")
    case User => config.user == Or(value, "")
    case IdentityFile =>
      (match value
       case None => config.identityFile == ""
       case Some(path) => config.identityFile == if "~" <= path then home(path[1..]) else path)
    case ProxyJump => config.proxyJump == Or(value, "")
    case ProxyCommand =>
      (match value
       case None => config.proxyCommand == ""
       case Some(command) => config.proxyCommand == if Lower(command) == "none" then "" else command)
    case ServerAliveInterval =>
      (match value
       case None => config.serverAliveInterval == -1
       case Some(seconds) => Atoi(seconds) == Some(config.serverAliveInterval))
    case Other(_) => value.None?
  }

  lemma ConfiguredHolds(home: string -> string, alias: string, settings: seq<Setting>, keyword: Keyword)
    ensures FieldHolds(home, Configured(home, alias, settings), keyword, FirstValue(settings, keyword))
  {
    FirstValueIsUnderstood(settings, keyword);
  }

  /** Directive `d` of block `b` reaches the alias with a value for the keyword. */
  predicate Obtains(blocks: seq<Block>, alias: string, keyword: Keyword, b: nat, d: nat)
  {
    && b < |blocks| && d < |blocks[b].directives|
    && Applies(blocks[b].patterns, alias)
    && Gives(blocks[b].directives[d], keyword)
  }

  /** No directive in front of directive `d` of block `b` does. */
  ghost predicate NoneBefore(blocks: seq<Block>, alias: string, keyword: Keyword, b: nat, d: nat) {
    forall b': nat, d': nat | b' < b || (b' == b && d' < d) :: !Obtains(blocks, alias, keyword, b', d')
  }

  lemma {:induction false} FirstValueAt(settings: seq<Setting>, keyword: Keyword, d: nat)
    requires d < |settings| && Gives(settings[d], keyword)
    requires forall i | 0 <= i < d :: !Gives(settings[i], keyword)
    ensures FirstValue(settings, keyword) == Some(settings[d].value)
    decreases d
  {
    if d > 0 {
      assert !Gives(settings[0], keyword);
      forall i | 0 <= i < d - 1
        ensures !Gives(settings[1..][i], keyword)
      {
        assert settings[1..][i] == settings[i + 1];
      }
      FirstValueAt(settings[1..], keyword, d - 1);
    }
  }

  lemma {:induction false} NoFirstValue(settings: seq<Setting>, keyword: Keyword)
    requires forall i | 0 <= i < |settings| :: !Gives(settings[i], keyword)
    ensures FirstValue(settings, keyword) == None
  {
    if settings != [] {
      forall i | 0 <= i < |settings| - 1
        ensures !Gives(settings[1..][i], keyword)
      {
        assert settings[1..][i] == settings[i + 1];
      }
      NoFirstValue(settings[1..], keyword);
    }
  }

  lemma {:induction false} FirstObtained(blocks: seq<Block>, alias: string, keyword: Keyword, b: nat, d: nat)
    requires Obtains(blocks, alias, keyword, b, d) && NoneBefore(blocks, alias, keyword, b, d)
    ensures FirstValue(Applicable(blocks, alias), keyword) == Some(blocks[b].directives[d].value)
    decreases b
  {
    var head, rest := blocks[0], blocks[1..];
    var own := if Applies(head.patterns, alias) then head.directives else [];
    FirstValueOfConcat(own, Applicable(rest, alias), keyword);
    assert forall i: nat :: Obtains(blocks, alias, keyword, 0, i) <==>
             i < |own| && Gives(own[i], keyword);
    if b == 0 {
      FirstValueAt(own, keyword, d);
    } else {
      NoFirstValue(own, keyword);
      assert forall b': nat, d': nat ::
          Obtains(rest, alias, keyword, b', d') <==> Obtains(blocks, alias, keyword, b' + 1, d');
      FirstObtained(rest, alias, keyword, b - 1, d);
    }
  }

  lemma {:induction false} NothingObtained(blocks: seq<Block>, alias: string, keyword: Keyword)
    requires forall b: nat, d: nat :: !Obtains(blocks, alias, keyword, b, d)
    ensures FirstValue(Applicable(blocks, alias), keyword) == None
  {
    if blocks != [] {
      var head, rest := blocks[0], blocks[1..];
      var own := if Applies(head.patterns, alias) then head.directives else [];
      FirstValueOfConcat(own, Applicable(rest, alias), keyword);
      assert forall i: nat :: Obtains(blocks, alias, keyword, 0, i) <==>
               i < |own| && Gives(own[i], keyword);
      NoFirstValue(own, keyword);
      assert forall b': nat, d': nat ::
          Obtains(rest, alias, keyword, b', d') <==> Obtains(blocks, alias, keyword, b' + 1, d');
      NothingObtained(rest, alias, keyword);
    }
  }

  /** The resolver's rule, by position: the field of a keyword holds the value of the first directive
      among the applicable blocks that obtains one. */
  lemma FirstObtainedWins(home: string -> string, blocks: seq<Block>, alias: string, keyword: Keyword, b: nat, d: nat)
    requires Obtains(blocks, alias, keyword, b, d) && NoneBefore(blocks, alias, keyword, b, d)
    ensures FieldHolds(home, Resolved(home, blocks, alias), keyword, Some(blocks[b].directives[d].value))
  {
    FirstObtained(blocks, alias, keyword, b, d);
  }

  /** ... and its default when none does. */
  lemma DefaultWhenNoneObtained(home: string -> string, blocks: seq<Block>, alias: string, keyword: Keyword)
    requires forall b: nat, d: nat :: !Obtains(blocks, alias, keyword, b, d)
    ensures FieldHolds(home, Resolved(home, blocks, alias), keyword, None)
  {
    NothingObtained(blocks, alias, keyword);
  }
}
