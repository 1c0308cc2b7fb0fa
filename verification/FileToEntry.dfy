/** From the text of a file to the fields of an entry. */
module FileToEntry {
  import opened Text
  import opened HostConfig
  import opened Includes
  import opened Reading

  // ---------------------------------------------------------------- the rule, by lines

  predicate IsHost(text: string) {
    Speaks(text) && KeywordText(text) == "host"
  }

  /** Line `h` is a Host line that applies, and no other Host line stands between it and line `n`. */
  predicate Under(lines: seq<string>, alias: string, h: nat, n: nat)
    requires n <= |lines|
  {
    && h < n && IsHost(lines[h]) && Applies(Arguments(lines[h]), alias)
    && forall k | h < k < n :: !IsHost(lines[k])
  }

  ghost predicate Governed(lines: seq<string>, alias: string, n: nat)
    requires n <= |lines|
  {
    exists h: nat :: Under(lines, alias, h, n)
  }

  /** Line `n` gives the alias a value under this name. */
  ghost predicate Sets(lines: seq<string>, alias: string, name: string, n: nat) {
    n < |lines| && Governed(lines, alias, n) && Offers(lines[n], name)
  }

  /** The line has the name of the field and a value that can be taken: an interval must be a number. */
  predicate Offers(text: string, name: string) {
    && Speaks(text) && KeywordText(text) == name
    && (name == "serveraliveinterval" ==> Atoi(Join(Arguments(text))).Some?)
  }

  const NAMES: seq<string> := ["hostname", "port", "user", "identityfile", "proxyjump", "proxycommand", "serveraliveinterval"]

  /** The field of this name has this value, or its default. */
  predicate FieldReads(home: string -> string, entry: SSHConfig, name: string, value: Option<string>) {
    && (name == "hostname" ==> entry.hostName == Or(value, ""))
    && (name == "port" ==> entry.port == Or(value, "22"))
    && (name == "user" ==> entry.user == Or(value, ""))
    && (name == "identityfile" ==>
          entry.identityFile == if value.Some? && "~" <= value.value then home(value.value[1..]) else Or(value, ""))
    && (name == "proxyjump" ==> entry.proxyJump == Or(value, ""))
    && (name == "proxycommand" ==>
          entry.proxyCommand == if value.Some? && Lower(value.value) == "none" then "" else Or(value, ""))
    && (name == "serveraliveinterval" ==>
          if value.Some? then Atoi(value.value) == Some(entry.serverAliveInterval) else entry.serverAliveInterval == -1)
  }

  // ---------------------------------------------------------------- the blocks of the first lines

  function BlocksOf(lines: seq<string>, n: nat): seq<Block>
    requires n <= |lines|
  {
    Group(Own(lines[..n]))
  }

  lemma BlocksSnoc(lines: seq<string>, n: nat)
    requires n < |lines|
    ensures BlocksOf(lines, n + 1) ==
            if OwnOf(lines[n]) == [] then BlocksOf(lines, n) else Grown(BlocksOf(lines, n), OwnOf(lines[n])[0])
  {
    OwnSnoc(lines, n);
    OwnIsSaid(lines[n]);
    var own := OwnOf(lines[n]);
    GroupOntoConcat([], Own(lines[..n]), own);
    if own != [] {
      assert own[1..] == [];
      assert GroupOnto(Grown(BlocksOf(lines, n), own[0]), []) == Grown(BlocksOf(lines, n), own[0]);
    }
  }

  /** What the next line adds to the settings that reach the alias. */
  lemma ApplicableOfGrown(blocks: seq<Block>, event: Event, alias: string)
    ensures Applicable(Grown(blocks, event), alias) ==
            Applicable(blocks, alias) +
            if event.Directive? && blocks != [] && Applies(blocks[|blocks| - 1].patterns, alias) then [event.setting] else []
  {
    match event {
      case Host(patterns) =>
        ApplicableOfConcat(blocks, [Block(patterns, [])], alias);
        assert Applicable([Block(patterns, [])][1..], alias) == [];
      case Directive(setting) =>
        if blocks != [] {
          var last := |blocks| - 1;
          var was := blocks[last];
          var now := Block(was.patterns, was.directives + [setting]);
          assert blocks == blocks[..last] + [was];
          ApplicableOfConcat(blocks[..last], [was], alias);
          ApplicableOfConcat(blocks[..last], [now], alias);
          assert Applicable([was][1..], alias) == [] && Applicable([now][1..], alias) == [];
        }
    }
  }

  lemma GovernedStep(lines: seq<string>, alias: string, n: nat)
    requires n < |lines|
    ensures Governed(lines, alias, n + 1) <==>
            if IsHost(lines[n]) then Applies(Arguments(lines[n]), alias) else Governed(lines, alias, n)
  {
    if IsHost(lines[n]) {
      if Applies(Arguments(lines[n]), alias) {
        assert Under(lines, alias, n, n + 1);
      }
    } else {
      if h: nat :| Under(lines, alias, h, n) {
        assert Under(lines, alias, h, n + 1);
      }
      var next := n + 1;
      if h: nat :| Under(lines, alias, h, next) {
        assert Under(lines, alias, h, n);
      }
    }
  }

  ghost predicate LastApplies(blocks: seq<Block>, alias: string) {
    blocks != [] && Applies(blocks[|blocks| - 1].patterns, alias)
  }

  lemma LastOfGrown(blocks: seq<Block>, event: Event, alias: string)
    ensures LastApplies(Grown(blocks, event), alias) <==>
            if event.Host? then Applies(event.patterns, alias) else LastApplies(blocks, alias)
  {
  }

  lemma HostIsOwn(text: string)
    ensures IsHost(text) <==> OwnOf(text) != [] && OwnOf(text)[0].Host?
    ensures IsHost(text) ==> OwnOf(text)[0].patterns == Arguments(text)
  {
    LineOfTokens(text);
  }

  /** The block being filled applies exactly when the lines before are under a Host line that does. */
  lemma {:induction false} LastBlockGoverns(lines: seq<string>, alias: string, n: nat)
    requires n <= |lines|
    ensures LastApplies(BlocksOf(lines, n), alias) <==> Governed(lines, alias, n)
  {
    if n > 0 {
      var own := OwnOf(lines[n - 1]);
      LastBlockGoverns(lines, alias, n - 1);
      BlocksSnoc(lines, n - 1);
      GovernedStep(lines, alias, n - 1);
      HostIsOwn(lines[n - 1]);
      if own != [] {
        LastOfGrown(BlocksOf(lines, n - 1), own[0], alias);
      }
    }
  }

  ghost function ValueAt(lines: seq<string>, alias: string, keyword: Keyword, n: nat): Option<string>
    requires n <= |lines|
  {
    FirstValue(Applicable(BlocksOf(lines, n), alias), keyword)
  }

  function TextAt(lines: seq<string>, k: nat): string {
    if k < |lines| && Speaks(lines[k]) then Join(Arguments(lines[k])) else ""
  }

  /** What one event adds to a value that is still open. */
  lemma ValueOfGrown(blocks: seq<Block>, event: Event, alias: string, keyword: Keyword)
    ensures var was := FirstValue(Applicable(blocks, alias), keyword);
            FirstValue(Applicable(Grown(blocks, event), alias), keyword) ==
            if was.None? && event.Directive? && LastApplies(blocks, alias) && Gives(event.setting, keyword)
            then Some(event.setting.value) else was
  {
    ApplicableOfGrown(blocks, event, alias);
    assert Applicable(blocks, alias) + [] == Applicable(blocks, alias);
    if event.Directive? {
      FirstValueStep(Applicable(blocks, alias), event.setting, keyword);
    }
  }

  lemma OfferIsGiven(text: string, name: string, keyword: Keyword)
    requires Named(name, keyword) && name in NAMES
    ensures Offers(text, name) <==>
            OwnOf(text) != [] && OwnOf(text)[0].Directive? && Gives(OwnOf(text)[0].setting, keyword)
    ensures Offers(text, name) ==> OwnOf(text)[0].setting.value == Join(Arguments(text))
  {
    OwnIsSaid(text);
    if OwnOf(text) != [] && OwnOf(text)[0].Directive? {
      assert OwnOf(text) == [OwnOf(text)[0]] && Says(text, OwnOf(text)[0]);
      GivesByName(text, OwnOf(text)[0].setting, name, keyword);
    } else {
      NothingIsSet(text, name);
    }
  }

  /** One more line is one more setting at most. */
  lemma ValueStep(lines: seq<string>, alias: string, name: string, keyword: Keyword, n: nat)
    requires n < |lines| && Named(name, keyword) && name in NAMES
    ensures ValueAt(lines, alias, keyword, n + 1) ==
            if ValueAt(lines, alias, keyword, n).None? && Sets(lines, alias, name, n)
            then Some(TextAt(lines, n)) else ValueAt(lines, alias, keyword, n)
  {
    BlocksSnoc(lines, n);
    LastBlockGoverns(lines, alias, n);
    OfferIsGiven(lines[n], name, keyword);
    if OwnOf(lines[n]) != [] {
      ValueOfGrown(BlocksOf(lines, n), OwnOf(lines[n])[0], alias, keyword);
    }
  }

  lemma GivesByName(text: string, s: Setting, name: string, keyword: Keyword)
    requires Says(text, Directive(s)) && Named(name, keyword) && name in NAMES
    ensures Gives(s, keyword) <==>
            KeywordText(text) == name && (name == "serveraliveinterval" ==> Atoi(Join(Arguments(text))).Some?)
  {
    KeywordIsNamed(name, keyword);
    KeywordIsNamed(KeywordText(text), s.keyword);
    KeywordsDiffer(name, KeywordText(text));
  }

  lemma NothingIsSet(text: string, name: string)
    requires name in NAMES && (OwnOf(text) == [] || OwnOf(text)[0].Host?)
    ensures !(Speaks(text) && KeywordText(text) == name)
  {
    LineOfTokens(text);
  }

  predicate FirstTrue(sets: seq<bool>, d: nat) {
    d <= |sets| && (d < |sets| ==> sets[d]) && forall e | 0 <= e < d :: !sets[e]
  }

  /** A value that is taken at the first chance and then kept is that of the first chance. */
  lemma {:induction false} FirstIsKept(sets: seq<bool>, text: seq<string>, value: seq<Option<string>>, n: nat, d: nat)
    requires n <= |sets| == |text| && |value| == |sets| + 1 && value[0] == None && FirstTrue(sets, d)
    requires forall k | 1 <= k <= |sets| ::
               value[k] == if value[k - 1].None? && sets[k - 1] then Some(text[k - 1]) else value[k - 1]
    ensures value[n] == if d < n then Some(text[d]) else None
  {
    if n > 0 {
      FirstIsKept(sets, text, value, n - 1, d);
    }
  }

  ghost function AllSets(lines: seq<string>, alias: string, name: string): seq<bool> {
    seq(|lines|, k requires 0 <= k < |lines| => Sets(lines, alias, name, k))
  }

  function AllTexts(lines: seq<string>): seq<string> {
    seq(|lines|, k requires 0 <= k < |lines| => TextAt(lines, k))
  }

  ghost function AllValues(lines: seq<string>, alias: string, keyword: Keyword): seq<Option<string>> {
    seq(|lines| + 1, k requires 0 <= k <= |lines| => ValueAt(lines, alias, keyword, k))
  }

  lemma AllSteps(lines: seq<string>, alias: string, name: string, keyword: Keyword, k: nat)
    requires 1 <= k <= |lines| && Named(name, keyword) && name in NAMES
    ensures var sets, text, value := AllSets(lines, alias, name), AllTexts(lines), AllValues(lines, alias, keyword);
            value[k] == if value[k - 1].None? && sets[k - 1] then Some(text[k - 1]) else value[k - 1]
  {
    ValueStep(lines, alias, name, keyword, k - 1);
  }

  lemma FirstToSet(lines: seq<string>, alias: string, name: string, d: nat)
    requires d <= |lines| && (d < |lines| ==> Sets(lines, alias, name, d))
    requires forall e | 0 <= e < d :: !Sets(lines, alias, name, e)
    ensures FirstTrue(AllSets(lines, alias, name), d)
  {
  }

  lemma ValuesInOrder(lines: seq<string>, alias: string, name: string, keyword: Keyword, d: nat)
    requires Named(name, keyword) && name in NAMES && FirstTrue(AllSets(lines, alias, name), d)
    ensures AllValues(lines, alias, keyword)[|lines|] == if d < |lines| then Some(AllTexts(lines)[d]) else None
  {
    ghost var sets, value := AllSets(lines, alias, name), AllValues(lines, alias, keyword);
    var text := AllTexts(lines);
    forall k | 1 <= k <= |lines|
      ensures value[k] == if value[k - 1].None? && sets[k - 1] then Some(text[k - 1]) else value[k - 1]
    {
      AllSteps(lines, alias, name, keyword, k);
    }
    NoneAtStart(lines, alias, keyword);
    FirstIsKept(sets, text, value, |lines|, d);
  }

  /** The value is that of line `d`, the first that sets it; there is none when `d` is past the end. */
  lemma ValuesAgree(lines: seq<string>, alias: string, name: string, keyword: Keyword, d: nat)
    requires d <= |lines| && Named(name, keyword) && name in NAMES
    requires d < |lines| ==> Sets(lines, alias, name, d)
    requires forall e | 0 <= e < d :: !Sets(lines, alias, name, e)
    ensures ValueAt(lines, alias, keyword, |lines|) == if d < |lines| then Some(TextAt(lines, d)) else None
  {
    FirstToSet(lines, alias, name, d);
    ValuesInOrder(lines, alias, name, keyword, d);
  }

  lemma NoneAtStart(lines: seq<string>, alias: string, keyword: Keyword)
    ensures AllValues(lines, alias, keyword)[0] == None
  {
    assert Applicable([], alias) == [];
  }

  // ---------------------------------------------------------------- from text to field

  function KeywordFor(name: string): (keyword: Keyword)
    requires name in NAMES
    ensures Named(name, keyword)
  {
    KeywordIsNamed(name, KeywordOf(name));
    KeywordOf(name)
  }

  lemma FieldIsRead(home: string -> string, entry: SSHConfig, name: string, keyword: Keyword, value: Option<string>)
    requires FieldHolds(home, entry, keyword, value) && Named(name, keyword) && name in NAMES
    ensures FieldReads(home, entry, name, value)
  {
  }

  /** The lines a load has read, Includes put in place, set a field by the first of them that stands
      under a Host line applying to the alias, begins with the name of the field in any case, and has a
      value that can be taken: the rest of the line, up to a comment, with single spaces. */
  lemma FirstLineSetsField(home: string -> string, files: Files, lines: seq<string>, alias: string, name: string, d: nat)
    requires Spells(lines, ReadAll(files).events) && name in NAMES
    requires Sets(lines, alias, name, d) && forall e | 0 <= e < d :: !Sets(lines, alias, name, e)
    ensures FieldReads(home, Resolved(home, Group(ReadAll(files).events), alias), name, Some(Join(Arguments(lines[d]))))
  {
    var keyword, blocks := KeywordFor(name), Group(ReadAll(files).events);
    BlocksAreRead(files, lines);
    ValuesAgree(lines, alias, name, keyword, d);
    ConfiguredHolds(home, alias, Applicable(blocks, alias), keyword);
    FieldIsRead(home, Resolved(home, blocks, alias), name, keyword, Some(Join(Arguments(lines[d]))));
  }

  /** ... and leave it at its default when there is no such line. */
  lemma NoLineLeavesDefault(home: string -> string, files: Files, lines: seq<string>, alias: string, name: string)
    requires Spells(lines, ReadAll(files).events) && name in NAMES
    requires forall e | 0 <= e < |lines| :: !Sets(lines, alias, name, e)
    ensures FieldReads(home, Resolved(home, Group(ReadAll(files).events), alias), name, None)
  {
    var keyword, blocks := KeywordFor(name), Group(ReadAll(files).events);
    BlocksAreRead(files, lines);
    ValuesAgree(lines, alias, name, keyword, |lines|);
    ConfiguredHolds(home, alias, Applicable(blocks, alias), keyword);
    FieldIsRead(home, Resolved(home, blocks, alias), name, keyword, None);
  }

  lemma BlocksAreRead(files: Files, lines: seq<string>)
    requires Spells(lines, ReadAll(files).events)
    ensures Group(ReadAll(files).events) == BlocksOf(lines, |lines|)
  {
    OwnSpells(lines);
    assert lines[..|lines|] == lines;
  }
}
