/** What a load shows when earlier loads, perhaps of other contents, have left their blocks behind. */
module Reload {
  import opened Text
  import opened Glob
  import opened HostConfig
  import opened HostTable
  import opened Includes

  /** What an earlier load gave an alias stays; a new value appears only for a keyword the earlier
      loads left open. */
  lemma EarlierLoadWins(home: string -> string, earlier: seq<Block>, later: seq<Block>, alias: string, keyword: Keyword)
    ensures var first := FirstValue(Applicable(earlier, alias), keyword);
            FieldHolds(home, Resolved(home, earlier + later, alias), keyword,
                       if first.Some? then first else FirstValue(Applicable(later, alias), keyword))
  {
    ApplicableOfConcat(earlier, later, alias);
    FirstValueOfConcat(Applicable(earlier, alias), Applicable(later, alias), keyword);
    ConfiguredHolds(home, alias, Applicable(earlier + later, alias), keyword);
  }

  // ---------------------------------------------------------------- the order

  /** The aliases whose class is not yet claimed. */
  function Without(aliases: seq<string>, claimed: set<string>): seq<string> {
    if aliases == [] then []
    else (if Lower(aliases[0]) in claimed then [] else [aliases[0]]) + Without(aliases[1..], claimed)
  }

  lemma {:induction false} WithoutOfConcat(a: seq<string>, b: seq<string>, claimed: set<string>)
    ensures Without(a + b, claimed) == Without(a, claimed) + Without(b, claimed)
  {
    if a == [] {
      assert a + b == b;
    } else {
      assert (a + b)[1..] == a[1..] + b;
      WithoutOfConcat(a[1..], b, claimed);
    }
  }

  lemma {:induction false} WithoutNone(aliases: seq<string>, claimed: set<string>)
    requires Folds(aliases) !! claimed
    ensures Without(aliases, claimed) == aliases
  {
    if aliases != [] {
      FoldsOfCons(aliases);
      assert Lower(aliases[0]) in Folds(aliases);
      WithoutNone(aliases[1..], claimed);
    }
  }

  lemma {:induction false} WithoutAll(aliases: seq<string>, claimed: set<string>)
    requires Folds(aliases) <= claimed
    ensures Without(aliases, claimed) == []
  {
    if aliases != [] {
      FoldsOfCons(aliases);
      assert Lower(aliases[0]) in Folds(aliases);
      WithoutAll(aliases[1..], claimed);
    }
  }

  /** Claiming more classes beforehand drops those classes from the spellings and nothing else. */
  lemma {:induction false} SpellingsWithout(candidates: seq<string>, claimed: set<string>, more: set<string>)
    ensures FirstSpellings(candidates, claimed + more) == Without(FirstSpellings(candidates, claimed), more)
  {
    if candidates != [] {
      var rest, fold := candidates[1..], Lower(candidates[0]);
      if fold in claimed {
        SpellingsWithout(rest, claimed, more);
      } else {
        var kept := FirstSpellings(rest, claimed + {fold});
        assert ([candidates[0]] + kept)[1..] == kept;
        SpellingsWithout(rest, claimed + {fold}, more);
        if fold in more {
          assert claimed + {fold} + more == claimed + more;
        } else {
          assert claimed + {fold} + more == claimed + more + {fold};
        }
      }
    }
  }

  /** The order after two loads: that of the first, then the new classes of the second. */
  lemma OrderOfConcat(earlier: seq<Block>, later: seq<Block>)
    ensures Order(earlier + later) == Order(earlier) + Without(Order(later), Folds(Order(earlier)))
  {
    var claimed := Folds(Candidates(earlier));
    CandidatesOfConcat(earlier, later);
    SpellingsOfConcat(Candidates(earlier), Candidates(later), {});
    SpellingsWithout(Candidates(later), {}, claimed);
    var _ := OrderIsFirstSpellings(earlier);
  }

  lemma TailIsNew(aliases: seq<string>, n: nat)
    requires n <= |aliases| && FoldDistinct(aliases)
    ensures Folds(aliases[n..]) !! Folds(aliases[..n])
  {
    forall x | x in Folds(aliases[n..]) ensures x !in Folds(aliases[..n]) {
      var j :| 0 <= j < |aliases| - n && x == Lower(aliases[n..][j]);
      assert aliases[n + j] == aliases[n..][j];
    }
  }

  lemma PrefixAndNew(before: seq<string>, after: seq<string>)
    requires FoldDistinct(after)
    ensures before + Without(after, Folds(before)) == after <==> before <= after
  {
    var added := Without(after, Folds(before));
    assert (before + added)[..|before|] == before;
    if before <= after {
      var tail := after[|before|..];
      assert after[..|before|] == before && after == before + tail;
      TailIsNew(after, |before|);
      WithoutOfConcat(before, tail, Folds(before));
      WithoutAll(before, Folds(before));
      WithoutNone(tail, Folds(before));
      assert added == [] + tail == tail;
    }
  }

  /** The later order is shown exactly when it begins with the earlier one. */
  lemma OrderShown(earlier: seq<Block>, later: seq<Block>)
    ensures Order(earlier + later) == Order(later) <==> Order(earlier) <= Order(later)
  {
    OrderOfConcat(earlier, later);
    var _ := OrderIsFirstSpellings(later);
    PrefixAndNew(Order(earlier), Order(later));
  }

  // ---------------------------------------------------------------- the entries

  /** An entry is determined by its alias and its seven fields. */
  lemma FieldsDetermine(home: string -> string, c: SSHConfig, d: SSHConfig, value: Keyword -> Option<string>)
    requires c.host == d.host
    requires forall keyword :: FieldHolds(home, c, keyword, value(keyword)) && FieldHolds(home, d, keyword, value(keyword))
    ensures c == d
  {
    assert FieldHolds(home, c, HostName, value(HostName));
    assert FieldHolds(home, c, Port, value(Port));
    assert FieldHolds(home, c, User, value(User));
    assert FieldHolds(home, c, IdentityFile, value(IdentityFile));
    assert FieldHolds(home, c, ProxyJump, value(ProxyJump));
    assert FieldHolds(home, c, ProxyCommand, value(ProxyCommand));
    assert FieldHolds(home, c, ServerAliveInterval, value(ServerAliveInterval));
  }

  /** The earlier blocks give the keyword no value, or one that the entry has anyway. */
  predicate Agrees(home: string -> string, earlier: seq<Block>, later: seq<Block>, alias: string, keyword: Keyword) {
    var first := FirstValue(Applicable(earlier, alias), keyword);
    first.None? || FieldHolds(home, Resolved(home, later, alias), keyword, first)
  }

  lemma EntryShown(home: string -> string, earlier: seq<Block>, later: seq<Block>, alias: string)
    ensures Resolved(home, earlier + later, alias) == Resolved(home, later, alias) <==>
            forall keyword :: Agrees(home, earlier, later, alias, keyword)
  {
    var both, own := Resolved(home, earlier + later, alias), Resolved(home, later, alias);
    forall keyword
      ensures FieldHolds(home, both, keyword, Winner(earlier, later, alias, keyword))
      ensures Agrees(home, earlier, later, alias, keyword) <==> FieldHolds(home, own, keyword, Winner(earlier, later, alias, keyword))
    {
      EarlierLoadWins(home, earlier, later, alias, keyword);
      ConfiguredHolds(home, alias, Applicable(later, alias), keyword);
    }
    if forall keyword :: Agrees(home, earlier, later, alias, keyword) {
      FieldsDetermine(home, both, own, keyword => Winner(earlier, later, alias, keyword));
    }
    if both == own {
      forall keyword ensures Agrees(home, earlier, later, alias, keyword) {
        assert FieldHolds(home, both, keyword, Winner(earlier, later, alias, keyword));
      }
    }
  }

  /** The value of a keyword after both loads. */
  function Winner(earlier: seq<Block>, later: seq<Block>, alias: string, keyword: Keyword): Option<string> {
    var first := FirstValue(Applicable(earlier, alias), keyword);
    if first.Some? then first else FirstValue(Applicable(later, alias), keyword)
  }

  // ---------------------------------------------------------------- exactly when

  /** The earlier blocks offer no alias out of place and no value the later ones do not have. */
  ghost predicate Superseded(home: string -> string, earlier: seq<Block>, later: seq<Block>) {
    && Order(earlier) <= Order(later)
    && forall alias, keyword | alias in Order(later) :: Agrees(home, earlier, later, alias, keyword)
  }

  /** A load shows the files it has read, and these alone, exactly when what was read before is
      superseded. */
  lemma LatestShownExactly(home: string -> string, earlier: seq<Block>, later: seq<Block>)
    ensures Order(earlier + later) == Order(later) && Table(home, earlier + later) == Table(home, later) <==>
            Superseded(home, earlier, later)
  {
    var all := earlier + later;
    OrderShown(earlier, later);
    if Order(all) == Order(later) {
      forall alias | alias in Order(later)
        ensures Resolved(home, all, alias) == Resolved(home, later, alias) <==>
                forall keyword :: Agrees(home, earlier, later, alias, keyword)
      {
        EntryShown(home, earlier, later, alias);
      }
      if Superseded(home, earlier, later) {
        SameTable(home, all, later);
      }
      if Table(home, all) == Table(home, later) {
        forall alias, keyword | alias in Order(later) ensures Agrees(home, earlier, later, alias, keyword) {
          assert Table(home, all)[alias] == Table(home, later)[alias];
        }
      }
    }
  }

  /** Aliases deleted from the files stay in the order, and so in the table. */
  lemma DeletedAliasStays(home: string -> string, earlier: seq<Block>, later: seq<Block>, alias: string)
    requires alias in Order(earlier)
    ensures alias in Order(earlier + later) && alias in Table(home, earlier + later)
  {
    OrderOfConcat(earlier, later);
  }

  // ---------------------------------------------------------------- an edited file

  /** A home directory with one configuration file. */
  function OneFile(lines: seq<string>): Files {
    Files(path => if path == "config" then Readable(lines, false) else Missing,
          path => Some(path), argument => [], Some(["config"]))
  }

  lemma ReadsOneFile(lines: seq<string>)
    ensures ReadAll(OneFile(lines)).status == ReadLines(OneFile(lines), lines, 0, {"config"}).status
    ensures ReadAll(OneFile(lines)).events == ReadLines(OneFile(lines), lines, 0, {"config"}).events
  {
    var files := OneFile(lines);
    var inside := ReadLines(files, lines, 0, {"config"});
    assert {} + {"config"} == {"config"};
    assert ReadFile(files, "config", 0, {}).events == [] + inside.events;
    assert ["config"][1..] == [];
    var first := ReadFile(files, "config", 0, {});
    assert ReadTargets(files, [], 0, first.loaded) == Nothing(first.loaded);
    assert [] + inside.events + [] == inside.events;
  }

  /** The file `Host a` with one port. */
  function PortFile(port: string): Files {
    OneFile(["Host a", "Port " + port])
  }

  lemma PortFileReads(port: string)
    requires IsWord(port) && !IsComment(port)
    ensures ReadAll(PortFile(port)).status == Done
    ensures Group(ReadAll(PortFile(port)).events) == PortBlocks(port)
  {
    var host, line := "Host a", "Port " + port;
    HostLineReads();
    PortLineReads(port);
    ReadsOneFile([host, line]);
    ReadsTwoLines(PortFile(port), host, line, ["a"], Setting(Port, port));
    GroupOfTwo(["a"], Setting(Port, port));
  }

  lemma HostLineReads()
    ensures LineOf("Host a") == HostLine(["a"])
  {
    TwoWords("Host", "a");
    assert Lower("Host") == "host";
    assert "Host" + " " + "a" == "Host a";
  }

  lemma PortLineReads(port: string)
    requires IsWord(port) && !IsComment(port)
    ensures LineOf("Port " + port) == SettingLine(Setting(Port, port))
  {
    TwoWords("Port", port);
    assert Lower("Port") == "port";
    assert "Port" + " " + port == "Port " + port;
  }

  lemma ReadsTwoLines(files: Files, first: string, second: string, patterns: seq<string>, setting: Setting)
    requires LineOf(first) == HostLine(patterns) && LineOf(second) == SettingLine(setting)
    ensures var load := ReadLines(files, [first, second], 0, {"config"});
            load.status == Done && load.events == [Host(patterns), Directive(setting)]
  {
    var loaded := {"config"};
    assert [first, second][1..] == [second] && [second][1..] == [];
    assert ReadLine(files, first, 0, loaded) == Load([Host(patterns)], loaded, [], Done);
    assert ReadLine(files, second, 0, loaded) == Load([Directive(setting)], loaded, [], Done);
    assert ReadLines(files, [], 0, loaded) == Nothing(loaded);
  }

  lemma GroupOfTwo(patterns: seq<string>, setting: Setting)
    ensures Group([Host(patterns), Directive(setting)]) == [Block(patterns, [setting])]
  {
    var block := Block(patterns, [setting]);
    SpelledOne(block);
    assert DirectivesOf([setting][1..]) == [];
    assert Spelled([block]) == [Host(patterns), Directive(setting)];
    GroupOfSpelled([block]);
  }

  function PortBlocks(port: string): seq<Block> {
    [Block(["a"], [Setting(Port, port)])]
  }

  lemma PortBlocksOffer(port: string)
    ensures FirstValue(Applicable(PortBlocks(port), "a"), Port) == Some(port)
    ensures Order(PortBlocks(port)) == ["a"]
  {
    var blocks := PortBlocks(port);
    LiteralCoversItself("a", "a");
    assert !Negated(blocks[0].patterns[0]) && PatternCovers(blocks[0].patterns[0], "a");
    assert Applies(["a"], "a");
    assert Applicable(blocks[1..], "a") == [];
    assert Applicable(blocks, "a") == [Setting(Port, port)];
    assert ["a"][1..] == [];
    assert LiteralPatterns(["a"]) == ["a"];
    assert Candidates(blocks) == ["a"];
    assert FirstSpellings([], {} + {Lower("a")}) == [];
  }

  /** An edited value: with port `was` read first, a load of the file with another port shows `was`. */
  lemma EditedValueIsStale(home: string -> string, was: string, now: string)
    requires was != now
    ensures Order(PortBlocks(was) + PortBlocks(now)) == Order(PortBlocks(now)) == ["a"]
    ensures Resolved(home, PortBlocks(was) + PortBlocks(now), "a").port == was
    ensures Resolved(home, PortBlocks(now), "a").port == now
    ensures !Superseded(home, PortBlocks(was), PortBlocks(now))
  {
    PortBlocksOffer(was);
    PortBlocksOffer(now);
    EarlierLoadWins(home, PortBlocks(was), PortBlocks(now), "a", Port);
    ConfiguredHolds(home, "a", Applicable(PortBlocks(now), "a"), Port);
    OrderShown(PortBlocks(was), PortBlocks(now));
    assert "a" in Order(PortBlocks(now));
    assert !Agrees(home, PortBlocks(was), PortBlocks(now), "a", Port);
  }

  /** A deleted alias: it is offered still. */
  lemma DeletedAliasIsStale(home: string -> string, port: string)
    ensures Order(PortBlocks(port) + []) == ["a"] && Order([]) == []
    ensures !Superseded(home, PortBlocks(port), [])
  {
    PortBlocksOffer(port);
    assert PortBlocks(port) + [] == PortBlocks(port);
  }

  lemma EmptyFileReads()
    ensures ReadAll(OneFile([])).status == Done && Group(ReadAll(OneFile([])).events) == []
  {
    ReadsOneFile([]);
  }

  /** A file read first with `Host a` and `Port 1`: after an edit to `Port 2` the table still has
      port 1, and after all lines have been deleted it still offers `a`. */
  lemma EditedFileIsStale(home: string -> string, first: seq<Block>, second: seq<Block>, empty: seq<Block>)
    requires first == Group(ReadAll(PortFile("1")).events)
    requires second == Group(ReadAll(PortFile("2")).events)
    requires empty == Group(ReadAll(OneFile([])).events)
    ensures Order(first + second) == ["a"] && Resolved(home, first + second, "a").port == "1"
    ensures Order(second) == ["a"] && Resolved(home, second, "a").port == "2"
    ensures Order(first + empty) == ["a"] && Order(empty) == []
    ensures !Superseded(home, first, second) && !Superseded(home, first, empty)
  {
    PortFileReads("1");
    PortFileReads("2");
    EmptyFileReads();
    EditedValueIsStale(home, "1", "2");
    DeletedAliasIsStale(home, "1");
  }

  /** With `Host a` on file, the lookup knows `A`, but there is no entry of that name. */
  lemma OtherSpellingHasNoEntry(home: string -> string, blocks: seq<Block>)
    requires blocks == Group(ReadAll(PortFile("1")).events)
    ensures LookupAnswer(home, blocks, "A", Some(Resolved(home, blocks, "a"))) && "A" !in Table(home, blocks)
  {
    PortFileReads("1");
    PortBlocksOffer("1");
    assert Lower("A") == Lower("a");
    assert "a" in Order(blocks);
    LookupByEntry(home, blocks, "A", "a");
  }
}
