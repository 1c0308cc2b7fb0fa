/** What reading the configuration files means: the stream of Host lines and directives they hold,
    with every Include expanded in place, and the blocks that stream falls into. */
module Includes {
  import opened Text
  import opened HostConfig
  import opened HostTable

  const MAX_INCLUDE_DEPTH: nat := 8

  /** What opening a path gives; a broken file fails after its lines have been read. */
  datatype File = Missing | Unreadable | Readable(lines: seq<string>, broken: bool)

  /** The file system as the loader sees it: contents, canonical paths (None when there is no
      working directory to complete one), the files an Include argument names, and the files
      loading starts from (None when they cannot be listed). */
  datatype Files = Files(
    open: string -> File,
    canonical: string -> Option<string>,
    targets: string -> seq<string>,
    sources: Option<seq<string>>)

  datatype Line =
    | Ignored
    | HostLine(patterns: seq<string>)
    | IncludeLine(arguments: seq<string>)
    | SettingLine(setting: Setting)

  function LineOf(text: string): Line {
    match SplitDirective(text)
    case None => Ignored
    case Some((keyword, value)) =>
      match keyword
      case "host" => HostLine(Fields(value))
      case "include" => IncludeLine(Fields(value))
      case _ => SettingLine(Setting(KeywordOf(keyword), value))
  }

  /** The patterns of a Host line, and the arguments of an Include, are its tokens up to a comment. */
  lemma LineOfTokens(text: string)
    ensures var tokens := Fields(text); var end := BeforeComment(tokens);
            && (LineOf(text).Ignored? <==> end < 2)
            && (LineOf(text).HostLine? <==> end >= 2 && Lower(tokens[0]) == "host")
            && (LineOf(text).HostLine? ==> LineOf(text).patterns == tokens[1..end])
            && (LineOf(text).IncludeLine? <==> end >= 2 && Lower(tokens[0]) == "include")
            && (LineOf(text).IncludeLine? ==> LineOf(text).arguments == tokens[1..end])
  {
    DirectiveTokens(text);
  }

  // ---------------------------------------------------------------- the stream

  datatype Event = Host(patterns: seq<string>) | Directive(setting: Setting)

  datatype Status = Done | NotFound | Failed

  /** An attempt to open a file, with its nesting depth. */
  datatype Visit = Visit(path: string, depth: nat)

  /** What reading yields: the stream, the canonical paths seen so far, the files opened, and
      whether reading went through. */
  datatype Load = Load(events: seq<Event>, loaded: set<string>, visits: seq<Visit>, status: Status)

  function Nothing(loaded: set<string>): Load {
    Load([], loaded, [], Done)
  }

  /** One load after another. */
  function Then(first: Load, second: Load): Load {
    Load(first.events + second.events, second.loaded, first.visits + second.visits, second.status)
  }

  predicate Seen(files: Files, path: string, loaded: set<string>) {
    var canonical := (files.canonical)(path);
    canonical.Some? && canonical.value in loaded
  }

  function Marked(files: Files, path: string, loaded: set<string>): set<string> {
    var canonical := (files.canonical)(path);
    if canonical.Some? then loaded + {canonical.value} else loaded
  }

  /** A file nested too deep or already seen contributes nothing. */
  function ReadFile(files: Files, path: string, depth: nat, loaded: set<string>): Load
    requires depth <= MAX_INCLUDE_DEPTH + 1
    decreases MAX_INCLUDE_DEPTH + 1 - depth, 1, 0
  {
    if depth > MAX_INCLUDE_DEPTH || Seen(files, path, loaded) then Nothing(loaded)
    else
      var marked := Marked(files, path, loaded);
      var visits := [Visit(path, depth)];
      match (files.open)(path)
      case Missing => Load([], marked, visits, NotFound)
      case Unreadable => Load([], marked, visits, Failed)
      case Readable(lines, broken) =>
        var inside := Then(Load([], marked, visits, Done), ReadLines(files, lines, depth, marked));
        if broken then inside.(status := Failed) else inside
  }

  /** What one line contributes. */
  function ReadLine(files: Files, text: string, depth: nat, loaded: set<string>): (load: Load)
    requires depth <= MAX_INCLUDE_DEPTH
    ensures load.status != NotFound
    decreases MAX_INCLUDE_DEPTH + 1 - depth, 0, 0
  {
    match LineOf(text)
    case Ignored => Nothing(loaded)
    case HostLine(patterns) => Load([Host(patterns)], loaded, [], Done)
    case IncludeLine(arguments) => ReadArguments(files, arguments, depth + 1, loaded)
    case SettingLine(setting) => Load([Directive(setting)], loaded, [], Done)
  }

  /** The lines of one file; the first failure ends them. */
  function ReadLines(files: Files, lines: seq<string>, depth: nat, loaded: set<string>): (load: Load)
    requires depth <= MAX_INCLUDE_DEPTH
    ensures load.status != NotFound
    decreases MAX_INCLUDE_DEPTH + 1 - depth, 0, 1, |lines|
  {
    if lines == [] then Nothing(loaded)
    else
      var first := ReadLine(files, lines[0], depth, loaded);
      if first.status == Failed then first
      else Then(first, ReadLines(files, lines[1..], depth, first.loaded))
  }

  /** The arguments of one Include, each standing for the files it names. */
  function ReadArguments(files: Files, arguments: seq<string>, depth: nat, loaded: set<string>): (load: Load)
    requires depth <= MAX_INCLUDE_DEPTH + 1
    ensures load.status != NotFound
    decreases MAX_INCLUDE_DEPTH + 1 - depth, 3, |arguments|
  {
    if arguments == [] then Nothing(loaded)
    else
      var first := ReadTargets(files, (files.targets)(arguments[0]), depth, loaded);
      if first.status == Failed then first
      else Then(first, ReadArguments(files, arguments[1..], depth, first.loaded))
  }

  /** Files one after another; a missing one is skipped. */
  function ReadTargets(files: Files, targets: seq<string>, depth: nat, loaded: set<string>): (load: Load)
    requires depth <= MAX_INCLUDE_DEPTH + 1
    ensures load.status != NotFound
    decreases MAX_INCLUDE_DEPTH + 1 - depth, 2, |targets|
  {
    if targets == [] then Nothing(loaded)
    else
      var first := ReadFile(files, targets[0], depth, loaded);
      if first.status == Failed then first
      else Then(first, ReadTargets(files, targets[1..], depth, first.loaded))
  }

  /** A whole load. */
  function ReadAll(files: Files): Load
  {
    match files.sources
    case None => Load([], {}, [], Failed)
    case Some(sources) => ReadTargets(files, sources, 0, {})
  }

  // ---------------------------------------------------------------- what is opened

  /** The opened files lie between the two depths, none of them had been seen, none with a canonical path is opened
      twice, and exactly they are new among the seen. */
  ghost predicate OpensFresh(files: Files, depth: nat, loaded: set<string>, load: Load) {
    && loaded <= load.loaded
    && (forall v | v in load.visits :: depth <= v.depth <= MAX_INCLUDE_DEPTH)
    && (forall v | v in load.visits && (files.canonical)(v.path).Some? ::
          (files.canonical)(v.path).value in load.loaded - loaded)
    && (forall c | c in load.loaded - loaded ::
          exists v :: v in load.visits && (files.canonical)(v.path) == Some(c))
    && OpenedOnce(files, load.visits)
  }

  ghost predicate OpenedOnce(files: Files, visits: seq<Visit>) {
    forall i, j | 0 <= i < j < |visits| && (files.canonical)(visits[i].path).Some? ::
      (files.canonical)(visits[i].path) != (files.canonical)(visits[j].path)
  }

  lemma ThenOpensFresh(files: Files, depth: nat, loaded: set<string>, first: Load, second: Load)
    requires OpensFresh(files, depth, loaded, first)
    requires OpensFresh(files, depth, first.loaded, second)
    ensures OpensFresh(files, depth, loaded, Then(first, second))
  {
    var both := Then(first, second);
    forall c | c in both.loaded - loaded
      ensures exists v :: v in both.visits && (files.canonical)(v.path) == Some(c)
    {
      if c in first.loaded {
        assert c in first.loaded - loaded;
        var v :| v in first.visits && (files.canonical)(v.path) == Some(c);
        assert v in both.visits;
      } else {
        assert c in second.loaded - first.loaded;
        var v :| v in second.visits && (files.canonical)(v.path) == Some(c);
        assert v in both.visits;
      }
    }
    forall i, j | 0 <= i < j < |both.visits| && (files.canonical)(both.visits[i].path).Some?
      ensures (files.canonical)(both.visits[i].path) != (files.canonical)(both.visits[j].path)
    {
      if i < |first.visits| <= j {
        assert first.visits[i] in first.visits && second.visits[j - |first.visits|] in second.visits;
      }
    }
  }

  lemma DeeperOpensFresh(files: Files, depth: nat, loaded: set<string>, load: Load)
    requires OpensFresh(files, depth + 1, loaded, load)
    ensures OpensFresh(files, depth, loaded, load)
  {
  }

  lemma {:induction false} FileOpensFresh(files: Files, path: string, depth: nat, loaded: set<string>)
    requires depth <= MAX_INCLUDE_DEPTH + 1
    ensures OpensFresh(files, depth, loaded, ReadFile(files, path, depth, loaded))
    decreases MAX_INCLUDE_DEPTH + 1 - depth, 1, 0
  {
    if !(depth > MAX_INCLUDE_DEPTH || Seen(files, path, loaded)) {
      var marked := Marked(files, path, loaded);
      var opening := Load([], marked, [Visit(path, depth)], Done);
      assert OpensFresh(files, depth, loaded, opening) by {
        assert opening.visits[0] in opening.visits;
      }
      match (files.open)(path) {
        case Missing =>
        case Unreadable =>
        case Readable(lines, broken) =>
          LinesOpenFresh(files, lines, depth, marked);
          ThenOpensFresh(files, depth, loaded, opening, ReadLines(files, lines, depth, marked));
      }
    }
  }

  lemma {:induction false} LinesOpenFresh(files: Files, lines: seq<string>, depth: nat, loaded: set<string>)
    requires depth <= MAX_INCLUDE_DEPTH
    ensures OpensFresh(files, depth, loaded, ReadLines(files, lines, depth, loaded))
    decreases MAX_INCLUDE_DEPTH + 1 - depth, 0, |lines|
  {
    if lines != [] {
      var first := ReadLine(files, lines[0], depth, loaded);
      var line := LineOf(lines[0]);
      if line.IncludeLine? {
        ArgumentsOpenFresh(files, line.arguments, depth + 1, loaded);
        DeeperOpensFresh(files, depth, loaded, first);
      }
      if first.status != Failed {
        LinesOpenFresh(files, lines[1..], depth, first.loaded);
        ThenOpensFresh(files, depth, loaded, first, ReadLines(files, lines[1..], depth, first.loaded));
      }
    }
  }

  lemma {:induction false} ArgumentsOpenFresh(files: Files, arguments: seq<string>, depth: nat, loaded: set<string>)
    requires depth <= MAX_INCLUDE_DEPTH + 1
    ensures OpensFresh(files, depth, loaded, ReadArguments(files, arguments, depth, loaded))
    decreases MAX_INCLUDE_DEPTH + 1 - depth, 3, |arguments|
  {
    if arguments != [] {
      var targets := (files.targets)(arguments[0]);
      var first := ReadTargets(files, targets, depth, loaded);
      TargetsOpenFresh(files, targets, depth, loaded);
      if first.status != Failed {
        ArgumentsOpenFresh(files, arguments[1..], depth, first.loaded);
        ThenOpensFresh(files, depth, loaded, first, ReadArguments(files, arguments[1..], depth, first.loaded));
      }
    }
  }

  lemma {:induction false} TargetsOpenFresh(files: Files, targets: seq<string>, depth: nat, loaded: set<string>)
    requires depth <= MAX_INCLUDE_DEPTH + 1
    ensures OpensFresh(files, depth, loaded, ReadTargets(files, targets, depth, loaded))
    decreases MAX_INCLUDE_DEPTH + 1 - depth, 2, |targets|
  {
    if targets != [] {
      var first := ReadFile(files, targets[0], depth, loaded);
      FileOpensFresh(files, targets[0], depth, loaded);
      if first.status != Failed {
        TargetsOpenFresh(files, targets[1..], depth, first.loaded);
        ThenOpensFresh(files, depth, loaded, first, ReadTargets(files, targets[1..], depth, first.loaded));
      }
    }
  }

  /** On any file system, cyclic Includes included, a load opens no path nested deeper than the limit,
      and none twice that has a canonical form. */
  lemma LoadOpensOnce(files: Files)
    ensures OpenedOnce(files, ReadAll(files).visits)
    ensures forall v | v in ReadAll(files).visits :: v.depth <= MAX_INCLUDE_DEPTH
    ensures forall i, j | 0 <= i < j < |ReadAll(files).visits| && ReadAll(files).visits[i].path == ReadAll(files).visits[j].path ::
              (files.canonical)(ReadAll(files).visits[i].path).None?
  {
    if files.sources.Some? {
      TargetsOpenFresh(files, files.sources.value, 0, {});
    }
  }

  // ---------------------------------------------------------------- blocks

  /** A Host line opens a block; a directive lands in the last one, or nowhere. */
  function Grown(blocks: seq<Block>, event: Event): seq<Block> {
    match event
    case Host(patterns) => blocks + [Block(patterns, [])]
    case Directive(setting) =>
      if blocks == [] then []
      else
        var last := |blocks| - 1;
        blocks[..last] + [Block(blocks[last].patterns, blocks[last].directives + [setting])]
  }

  function GroupOnto(blocks: seq<Block>, events: seq<Event>): seq<Block>
    decreases events
  {
    if events == [] then blocks else GroupOnto(Grown(blocks, events[0]), events[1..])
  }

  /** The blocks of a stream. */
  function Group(events: seq<Event>): seq<Block> {
    GroupOnto([], events)
  }

  lemma {:induction false} GroupOntoConcat(blocks: seq<Block>, e: seq<Event>, f: seq<Event>)
    ensures GroupOnto(blocks, e + f) == GroupOnto(GroupOnto(blocks, e), f)
    decreases e
  {
    if e == [] {
      assert e + f == f;
    } else {
      assert (e + f)[1..] == e[1..] + f;
      GroupOntoConcat(Grown(blocks, e[0]), e[1..], f);
    }
  }

  function DirectivesOf(settings: seq<Setting>): seq<Event> {
    if settings == [] then [] else [Directive(settings[0])] + DirectivesOf(settings[1..])
  }

  /** The stream a list of blocks spells out. */
  function Spelled(blocks: seq<Block>): seq<Event> {
    if blocks == [] then []
    else [Host(blocks[0].patterns)] + DirectivesOf(blocks[0].directives) + Spelled(blocks[1..])
  }

  /** The stream from its first Host line on. */
  function FromFirstHost(events: seq<Event>): seq<Event> {
    if events == [] || events[0].Host? then events else FromFirstHost(events[1..])
  }

  lemma {:induction false} DirectivesOfSnoc(settings: seq<Setting>, s: Setting)
    ensures DirectivesOf(settings + [s]) == DirectivesOf(settings) + [Directive(s)]
  {
    if settings == [] {
      assert DirectivesOf([s][1..]) == [];
    } else {
      assert (settings + [s])[1..] == settings[1..] + [s];
      DirectivesOfSnoc(settings[1..], s);
    }
  }

  lemma {:induction false} SpelledConcat(b: seq<Block>, c: seq<Block>)
    ensures Spelled(b + c) == Spelled(b) + Spelled(c)
  {
    if b == [] {
      assert b + c == c;
    } else {
      assert (b + c)[1..] == b[1..] + c;
      SpelledConcat(b[1..], c);
    }
  }

  lemma SpelledOne(block: Block)
    ensures Spelled([block]) == [Host(block.patterns)] + DirectivesOf(block.directives)
  {
    assert Spelled([block][1..]) == [];
  }

  lemma SpelledGrown(blocks: seq<Block>, event: Event)
    requires blocks != [] || event.Host?
    ensures Spelled(Grown(blocks, event)) == Spelled(blocks) + [event]
  {
    match event {
      case Host(patterns) =>
        SpelledConcat(blocks, [Block(patterns, [])]);
        SpelledOne(Block(patterns, []));
      case Directive(setting) =>
        var last := |blocks| - 1;
        var block := blocks[last];
        var grown := Block(block.patterns, block.directives + [setting]);
        assert blocks == blocks[..last] + [block];
        SpelledConcat(blocks[..last], [block]);
        SpelledConcat(blocks[..last], [grown]);
        SpelledOne(block);
        SpelledOne(grown);
        DirectivesOfSnoc(block.directives, setting);
    }
  }

  lemma {:induction false} SpelledGroupOnto(blocks: seq<Block>, events: seq<Event>)
    ensures Spelled(GroupOnto(blocks, events)) ==
            Spelled(blocks) + if blocks == [] then FromFirstHost(events) else events
    decreases events
  {
    if events != [] {
      SpelledGroupOnto(Grown(blocks, events[0]), events[1..]);
      if blocks != [] || events[0].Host? {
        SpelledGrown(blocks, events[0]);
        assert [events[0]] + events[1..] == events;
        assert Spelled(blocks) + [events[0]] + events[1..] == Spelled(blocks) + events;
      }
    }
  }

  /** Grouping loses and invents nothing: spelled out again, the blocks give the stream from its
      first Host line on. Nothing else does, because two lists of blocks that spell out alike are
      equal. */
  lemma GroupSpellsStream(events: seq<Event>)
    ensures Spelled(Group(events)) == FromFirstHost(events)
  {
    SpelledGroupOnto([], events);
  }

  lemma {:induction false} GroupOntoDirectives(blocks: seq<Block>, patterns: seq<string>, had: seq<Setting>, settings: seq<Setting>)
    ensures GroupOnto(blocks + [Block(patterns, had)], DirectivesOf(settings)) ==
            blocks + [Block(patterns, had + settings)]
    decreases settings
  {
    if settings == [] {
      assert had + settings == had;
    } else {
      var start := blocks + [Block(patterns, had)];
      assert start[..|start| - 1] == blocks;
      assert Grown(start, Directive(settings[0])) == blocks + [Block(patterns, had + [settings[0]])];
      GroupOntoDirectives(blocks, patterns, had + [settings[0]], settings[1..]);
      assert had + [settings[0]] + settings[1..] == had + settings;
    }
  }

  lemma {:induction false} GroupOntoSpelled(done: seq<Block>, blocks: seq<Block>)
    ensures GroupOnto(done, Spelled(blocks)) == done + blocks
    decreases blocks
  {
    if blocks == [] {
      assert done + blocks == done;
    } else {
      var head := blocks[0];
      var visits := done + [Block(head.patterns, [])];
      var body := DirectivesOf(head.directives);
      assert Spelled(blocks) == [Host(head.patterns)] + (body + Spelled(blocks[1..]));
      assert GroupOnto(done, Spelled(blocks)) == GroupOnto(visits, body + Spelled(blocks[1..]));
      GroupOntoConcat(visits, body, Spelled(blocks[1..]));
      GroupOntoDirectives(done, head.patterns, [], head.directives);
      assert [] + head.directives == head.directives;
      GroupOntoSpelled(done + [head], blocks[1..]);
      assert done + [head] + blocks[1..] == done + blocks;
    }
  }

  /** Every list of blocks is the grouping of the stream it spells out. */
  lemma GroupOfSpelled(blocks: seq<Block>)
    ensures Group(Spelled(blocks)) == blocks
  {
    GroupOntoSpelled([], blocks);
    assert [] + blocks == blocks;
  }

  // ---------------------------------------------------------------- loads cut short

  lemma GrownIsCut(blocks: seq<Block>, event: Event)
    ensures CutFrom(blocks, Grown(blocks, event))
  {
  }

  lemma CutTransitive(a: seq<Block>, b: seq<Block>, c: seq<Block>)
    requires CutFrom(a, b) && CutFrom(b, c)
    ensures CutFrom(a, c)
  {
    forall i | 0 <= i < |a|
      ensures && a[i].patterns == c[i].patterns && a[i].directives <= c[i].directives
              && (i + 1 < |a| ==> a[i] == c[i])
    {
      assert b[i].patterns == c[i].patterns;
    }
  }

  lemma {:induction false} GroupOntoExtends(blocks: seq<Block>, events: seq<Event>)
    ensures CutFrom(blocks, GroupOnto(blocks, events))
    decreases events
  {
    if events != [] {
      GrownIsCut(blocks, events[0]);
      GroupOntoExtends(Grown(blocks, events[0]), events[1..]);
      CutTransitive(blocks, Grown(blocks, events[0]), GroupOnto(blocks, events));
    }
  }

  /** The blocks of the beginning of a stream are the blocks of the stream, cut short. */
  lemma GroupOfPrefix(prefix: seq<Event>, events: seq<Event>)
    requires prefix <= events
    ensures CutFrom(Group(prefix), Group(events))
  {
    assert events == prefix + events[|prefix|..];
    GroupOntoConcat([], prefix, events[|prefix|..]);
    GroupOntoExtends(Group(prefix), events[|prefix|..]);
  }

  /** `after` is `before` with unreadable files made readable, perhaps not all of them, and broken
      files read further; nothing else differs. */
  ghost predicate Repairs(before: Files, after: Files) {
    && (forall p :: (before.canonical)(p) == (after.canonical)(p))
    && (forall a :: (before.targets)(a) == (after.targets)(a))
    && (before.sources.Some? ==> after.sources == before.sources)
    && (forall p :: RepairsFile((before.open)(p), (after.open)(p)))
  }

  ghost predicate RepairsFile(before: File, after: File) {
    match before
    case Missing => after == before
    case Unreadable => true
    case Readable(lines, broken) =>
      if broken then after.Readable? && lines <= after.lines else after == before
  }

  /** The later load says the same, or goes on from where the earlier one failed. */
  ghost predicate GoesOn(before: Load, after: Load) {
    if before.status == Failed then before.events <= after.events else after == before
  }

  lemma ThenGoesOn(first: Load, second: Load, second': Load)
    requires GoesOn(second, second')
    ensures GoesOn(Then(first, second), Then(first, second'))
  {
  }

  lemma {:induction false} ReadLinesConcat(files: Files, lines: seq<string>, more: seq<string>, depth: nat, loaded: set<string>)
    requires depth <= MAX_INCLUDE_DEPTH
    ensures var first := ReadLines(files, lines, depth, loaded);
            ReadLines(files, lines + more, depth, loaded) ==
            if first.status == Failed then first else Then(first, ReadLines(files, more, depth, first.loaded))
    decreases lines
  {
    if lines == [] {
      assert lines + more == more;
    } else {
      assert (lines + more)[1..] == lines[1..] + more;
      var first := ReadLine(files, lines[0], depth, loaded);
      if first.status != Failed {
        ReadLinesConcat(files, lines[1..], more, depth, first.loaded);
        ThenAssociates(first, ReadLines(files, lines[1..], depth, first.loaded),
                       ReadLines(files, more, depth, ReadLines(files, lines[1..], depth, first.loaded).loaded));
      }
    }
  }

  lemma ThenAssociates(a: Load, b: Load, c: Load)
    ensures Then(Then(a, b), c) == Then(a, Then(b, c))
  {
    assert a.events + b.events + c.events == a.events + (b.events + c.events);
    assert a.visits + b.visits + c.visits == a.visits + (b.visits + c.visits);
  }

  lemma {:induction false} FileGoesOn(before: Files, after: Files, path: string, depth: nat, loaded: set<string>)
    requires Repairs(before, after) && depth <= MAX_INCLUDE_DEPTH + 1
    ensures GoesOn(ReadFile(before, path, depth, loaded), ReadFile(after, path, depth, loaded))
    decreases MAX_INCLUDE_DEPTH + 1 - depth, 1, 0
  {
    assert Seen(before, path, loaded) == Seen(after, path, loaded);
    assert Marked(before, path, loaded) == Marked(after, path, loaded);
    if !(depth > MAX_INCLUDE_DEPTH || Seen(before, path, loaded)) {
      assert RepairsFile((before.open)(path), (after.open)(path));
      match (before.open)(path) {
        case Missing =>
        case Unreadable =>
        case Readable(lines, broken) =>
          var marked := Marked(before, path, loaded);
          var all := (after.open)(path).lines;
          LinesGoOn(before, after, lines, depth, marked);
          assert all == lines + all[|lines|..];
          ReadLinesConcat(after, lines, all[|lines|..], depth, marked);
          if !broken {
            assert all[|lines|..] == [];
          }
      }
    }
  }

  lemma {:induction false} LinesGoOn(before: Files, after: Files, lines: seq<string>, depth: nat, loaded: set<string>)
    requires Repairs(before, after) && depth <= MAX_INCLUDE_DEPTH
    ensures GoesOn(ReadLines(before, lines, depth, loaded), ReadLines(after, lines, depth, loaded))
    decreases MAX_INCLUDE_DEPTH + 1 - depth, 0, |lines|
  {
    if lines != [] {
      var first := ReadLine(before, lines[0], depth, loaded);
      var line := LineOf(lines[0]);
      if line.IncludeLine? {
        ArgumentsGoOn(before, after, line.arguments, depth + 1, loaded);
      }
      if first.status != Failed {
        LinesGoOn(before, after, lines[1..], depth, first.loaded);
        ThenGoesOn(first, ReadLines(before, lines[1..], depth, first.loaded),
                   ReadLines(after, lines[1..], depth, first.loaded));
      }
    }
  }

  lemma {:induction false} ArgumentsGoOn(before: Files, after: Files, arguments: seq<string>, depth: nat, loaded: set<string>)
    requires Repairs(before, after) && depth <= MAX_INCLUDE_DEPTH + 1
    ensures GoesOn(ReadArguments(before, arguments, depth, loaded), ReadArguments(after, arguments, depth, loaded))
    decreases MAX_INCLUDE_DEPTH + 1 - depth, 3, |arguments|
  {
    if arguments != [] {
      var targets := (before.targets)(arguments[0]);
      assert targets == (after.targets)(arguments[0]);
      TargetsGoOn(before, after, targets, depth, loaded);
      var first := ReadTargets(before, targets, depth, loaded);
      if first.status != Failed {
        ArgumentsGoOn(before, after, arguments[1..], depth, first.loaded);
        ThenGoesOn(first, ReadArguments(before, arguments[1..], depth, first.loaded),
                   ReadArguments(after, arguments[1..], depth, first.loaded));
      }
    }
  }

  lemma {:induction false} TargetsGoOn(before: Files, after: Files, targets: seq<string>, depth: nat, loaded: set<string>)
    requires Repairs(before, after) && depth <= MAX_INCLUDE_DEPTH + 1
    ensures GoesOn(ReadTargets(before, targets, depth, loaded), ReadTargets(after, targets, depth, loaded))
    decreases MAX_INCLUDE_DEPTH + 1 - depth, 2, |targets|
  {
    if targets != [] {
      FileGoesOn(before, after, targets[0], depth, loaded);
      var first := ReadFile(before, targets[0], depth, loaded);
      if first.status != Failed {
        TargetsGoOn(before, after, targets[1..], depth, first.loaded);
        ThenGoesOn(first, ReadTargets(before, targets[1..], depth, first.loaded),
                   ReadTargets(after, targets[1..], depth, first.loaded));
      }
    }
  }

  /** A load of the same files, or of files repaired since, holds the blocks of the earlier load,
      which may have been cut short by the failure. */
  lemma EarlierLoadIsCut(before: Files, after: Files)
    requires Repairs(before, after)
    ensures CutFrom(Group(ReadAll(before).events), Group(ReadAll(after).events))
  {
    if before.sources.Some? {
      TargetsGoOn(before, after, before.sources.value, 0, {});
    }
    GroupOfPrefix(ReadAll(before).events, ReadAll(after).events);
  }
}
