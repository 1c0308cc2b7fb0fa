/** Which files a load opens, and what it takes from them: stated by the text of the files. */
module Reading {
  import opened Text
  import opened HostConfig
  import opened HostTable
  import opened Includes

  // ---------------------------------------------------------------- lines

  /** A line with a keyword and at least one more token before any comment. */
  predicate Speaks(text: string) {
    BeforeComment(Fields(text)) >= 2
  }

  function KeywordText(text: string): string
    requires Speaks(text)
  {
    Lower(Fields(text)[0])
  }

  function Arguments(text: string): seq<string>
    requires Speaks(text)
  {
    Fields(text)[1..BeforeComment(Fields(text))]
  }

  predicate IsInclude(text: string) {
    Speaks(text) && KeywordText(text) == "include"
  }

  /** The keyword of a name, for the seven the resolver knows and for all others. */
  predicate Named(name: string, keyword: Keyword) {
    match keyword
    case HostName => name == "hostname"
    case Port => name == "port"
    case User => name == "user"
    case IdentityFile => name == "identityfile"
    case ProxyJump => name == "proxyjump"
    case ProxyCommand => name == "proxycommand"
    case ServerAliveInterval => name == "serveraliveinterval"
    case Other(other) =>
      && name == other
      && name !in ["hostname", "port", "user", "identityfile", "proxyjump", "proxycommand", "serveraliveinterval"]
  }

  /** The event a line stands for: its patterns after Host, and otherwise its keyword with the tokens
      after it, joined by single spaces. */
  predicate Says(text: string, event: Event) {
    Speaks(text) && KeywordText(text) != "include" &&
    match event
    case Host(patterns) => KeywordText(text) == "host" && patterns == Arguments(text)
    case Directive(setting) =>
      KeywordText(text) != "host" && Named(KeywordText(text), setting.keyword) && setting.value == Join(Arguments(text))
  }

  /** What one line says, as a list of one event or none. */
  function OwnOf(text: string): (events: seq<Event>) {
    match LineOf(text)
    case HostLine(patterns) => [Host(patterns)]
    case SettingLine(setting) => [Directive(setting)]
    case _ => []
  }

  lemma KeywordIsNamed(name: string, keyword: Keyword)
    ensures Named(name, keyword) <==> keyword == KeywordOf(name)
  {
  }

  lemma OwnIsSaid(text: string)
    ensures |OwnOf(text)| <= 1
    ensures forall event :: Says(text, event) <==> OwnOf(text) == [event]
    ensures LineOf(text).IncludeLine? <==> IsInclude(text)
    ensures IsInclude(text) ==> LineOf(text).arguments == Arguments(text)
  {
    LineOfTokens(text);
    if Speaks(text) && KeywordText(text) !in ["host", "include"] {
      var name := KeywordText(text);
      forall keyword ensures Named(name, keyword) <==> keyword == KeywordOf(name) {
        KeywordIsNamed(name, keyword);
      }
      assert LineOf(text) == SettingLine(Setting(KeywordOf(name), Join(Arguments(text))));
    }
  }

  /** What a list of lines says, Includes aside. */
  function Own(lines: seq<string>): seq<Event> {
    if lines == [] then [] else OwnOf(lines[0]) + Own(lines[1..])
  }

  lemma {:induction false} OwnOfConcat(a: seq<string>, b: seq<string>)
    ensures Own(a + b) == Own(a) + Own(b)
  {
    if a == [] {
      assert a + b == b;
    } else {
      assert (a + b)[1..] == a[1..] + b;
      OwnOfConcat(a[1..], b);
    }
  }

  lemma OwnSnoc(lines: seq<string>, n: nat)
    requires n < |lines|
    ensures Own(lines[..n + 1]) == Own(lines[..n]) + OwnOf(lines[n])
  {
    assert lines[..n + 1] == lines[..n] + [lines[n]];
    OwnOfConcat(lines[..n], [lines[n]]);
    assert Own([lines[n]][1..]) == [];
  }

  /** The events are what the lines say, in line order. */
  ghost predicate Spells(lines: seq<string>, events: seq<Event>) {
    if lines == [] then events == []
    else if exists event :: Says(lines[0], event) then
      events != [] && Says(lines[0], events[0]) && Spells(lines[1..], events[1..])
    else Spells(lines[1..], events)
  }

  lemma {:induction false} OwnSpells(lines: seq<string>)
    ensures forall events :: Spells(lines, events) <==> events == Own(lines)
  {
    if lines != [] {
      OwnIsSaid(lines[0]);
      OwnSpells(lines[1..]);
      forall events ensures Spells(lines, events) <==> events == Own(lines) {
        if OwnOf(lines[0]) != [] {
          var event := OwnOf(lines[0])[0];
          assert OwnOf(lines[0]) == [event] && Says(lines[0], event);
          assert events != [] ==> events == [events[0]] + events[1..];
        }
      }
    }
  }

  predicate NoIncludes(lines: seq<string>) {
    forall i | 0 <= i < |lines| :: !IsInclude(lines[i])
  }

  // ---------------------------------------------------------------- what must be opened

  /** The file at this visit has an Include that names the path, and the limit allows to follow it. */
  ghost predicate Names(files: Files, visit: Visit, path: string) {
    && visit.depth < 8 && (files.open)(visit.path).Readable?
    && NamedIn(files, (files.open)(visit.path).lines, path)
  }

  ghost predicate NamedIn(files: Files, lines: seq<string>, path: string) {
    exists i | 0 <= i < |lines| :: NamedBy(files, lines[i], path)
  }

  predicate NamedBy(files: Files, text: string, path: string) {
    IsInclude(text) && exists k | 0 <= k < |Arguments(text)| :: path in (files.targets)(Arguments(text)[k])
  }

  /** A visit of the path, or of another with the same canonical form. */
  ghost predicate Reached(files: Files, visits: seq<Visit>, path: string) {
    exists v | v in visits ::
      v.path == path || ((files.canonical)(path).Some? && (files.canonical)(v.path) == (files.canonical)(path))
  }

  ghost predicate Covers(files: Files, load: Load, path: string) {
    || (exists v :: v in load.visits && v.path == path)
    || ((files.canonical)(path).Some? && (files.canonical)(path).value in load.loaded)
  }

  ghost predicate Follows(files: Files, load: Load) {
    forall v, path | v in load.visits && Names(files, v, path) :: Covers(files, load, path)
  }

  lemma ThenFollows(files: Files, first: Load, second: Load)
    requires Follows(files, first) && Follows(files, second) && first.loaded <= second.loaded
    ensures Follows(files, Then(first, second))
    ensures forall path :: Covers(files, first, path) || Covers(files, second, path) ==> Covers(files, Then(first, second), path)
  {
    var both := Then(first, second);
    forall path | Covers(files, first, path) || Covers(files, second, path) ensures Covers(files, both, path) {
      if v :| v in first.visits && v.path == path {
        assert v in both.visits;
      } else if v :| v in second.visits && v.path == path {
        assert v in both.visits;
      }
    }
  }

  lemma {:induction false} FileFollows(files: Files, path: string, depth: nat, loaded: set<string>)
    requires depth <= MAX_INCLUDE_DEPTH + 1 && ReadFile(files, path, depth, loaded).status != Failed
    ensures Follows(files, ReadFile(files, path, depth, loaded))
    ensures depth <= MAX_INCLUDE_DEPTH ==> Covers(files, ReadFile(files, path, depth, loaded), path)
    decreases MAX_INCLUDE_DEPTH + 1 - depth, 1, 0
  {
    if !(depth > MAX_INCLUDE_DEPTH || Seen(files, path, loaded)) {
      var load := ReadFile(files, path, depth, loaded);
      var visit := Visit(path, depth);
      match (files.open)(path) {
        case Missing =>
          assert visit in load.visits;
        case Unreadable =>
        case Readable(lines, broken) =>
          var marked := Marked(files, path, loaded);
          var inside := ReadLines(files, lines, depth, marked);
          LinesFollow(files, lines, depth, marked);
          assert load.visits == [visit] + inside.visits && load.loaded == inside.loaded;
          assert visit in load.visits;
          assert forall p :: Covers(files, inside, p) ==> Covers(files, load, p);
      }
    }
  }

  lemma NamedInFirstOrRest(files: Files, lines: seq<string>, path: string)
    requires lines != [] && NamedIn(files, lines, path)
    ensures NamedBy(files, lines[0], path) || NamedIn(files, lines[1..], path)
  {
    var i :| 0 <= i < |lines| && NamedBy(files, lines[i], path);
    if i > 0 {
      assert lines[1..][i - 1] == lines[i];
    }
  }

  lemma {:induction false} LineFollows(files: Files, text: string, depth: nat, loaded: set<string>)
    requires depth <= MAX_INCLUDE_DEPTH && ReadLine(files, text, depth, loaded).status != Failed
    ensures Follows(files, ReadLine(files, text, depth, loaded))
    ensures depth < 8 ==> forall path | NamedBy(files, text, path) :: Covers(files, ReadLine(files, text, depth, loaded), path)
    decreases MAX_INCLUDE_DEPTH + 1 - depth, 0, 0
  {
    OwnIsSaid(text);
    if IsInclude(text) {
      ArgumentsFollow(files, Arguments(text), depth + 1, loaded);
    }
  }

  lemma {:induction false} LinesFollow(files: Files, lines: seq<string>, depth: nat, loaded: set<string>)
    requires depth <= MAX_INCLUDE_DEPTH && ReadLines(files, lines, depth, loaded).status != Failed
    ensures Follows(files, ReadLines(files, lines, depth, loaded))
    ensures depth < 8 ==> forall path | NamedIn(files, lines, path) :: Covers(files, ReadLines(files, lines, depth, loaded), path)
    decreases MAX_INCLUDE_DEPTH + 1 - depth, 0, |lines| + 1
  {
    if lines != [] {
      var first := ReadLine(files, lines[0], depth, loaded);
      LineFollows(files, lines[0], depth, loaded);
      LinesFollow(files, lines[1..], depth, first.loaded);
      LinesOpenFresh(files, lines[1..], depth, first.loaded);
      ThenFollows(files, first, ReadLines(files, lines[1..], depth, first.loaded));
      forall path | NamedIn(files, lines, path) ensures NamedBy(files, lines[0], path) || NamedIn(files, lines[1..], path) {
        NamedInFirstOrRest(files, lines, path);
      }
    }
  }

  lemma {:induction false} ArgumentsFollow(files: Files, arguments: seq<string>, depth: nat, loaded: set<string>)
    requires depth <= MAX_INCLUDE_DEPTH + 1 && ReadArguments(files, arguments, depth, loaded).status != Failed
    ensures Follows(files, ReadArguments(files, arguments, depth, loaded))
    ensures depth <= MAX_INCLUDE_DEPTH ==>
              forall k, path | 0 <= k < |arguments| && path in (files.targets)(arguments[k]) ::
                Covers(files, ReadArguments(files, arguments, depth, loaded), path)
    decreases MAX_INCLUDE_DEPTH + 1 - depth, 3, |arguments|
  {
    if arguments != [] {
      var targets := (files.targets)(arguments[0]);
      var first := ReadTargets(files, targets, depth, loaded);
      TargetsFollow(files, targets, depth, loaded);
      ArgumentsFollow(files, arguments[1..], depth, first.loaded);
      ArgumentsOpenFresh(files, arguments[1..], depth, first.loaded);
      ThenFollows(files, first, ReadArguments(files, arguments[1..], depth, first.loaded));
      assert forall k | 0 < k < |arguments| :: arguments[k] == arguments[1..][k - 1];
    }
  }

  lemma {:induction false} TargetsFollow(files: Files, targets: seq<string>, depth: nat, loaded: set<string>)
    requires depth <= MAX_INCLUDE_DEPTH + 1 && ReadTargets(files, targets, depth, loaded).status != Failed
    ensures Follows(files, ReadTargets(files, targets, depth, loaded))
    ensures depth <= MAX_INCLUDE_DEPTH ==>
              forall path | path in targets :: Covers(files, ReadTargets(files, targets, depth, loaded), path)
    decreases MAX_INCLUDE_DEPTH + 1 - depth, 2, |targets|
  {
    if targets != [] {
      var first := ReadFile(files, targets[0], depth, loaded);
      FileFollows(files, targets[0], depth, loaded);
      TargetsFollow(files, targets[1..], depth, first.loaded);
      TargetsOpenFresh(files, targets[1..], depth, first.loaded);
      ThenFollows(files, first, ReadTargets(files, targets[1..], depth, first.loaded));
    }
  }

  /** A load that goes through has opened every file it starts from, and every file an Include names in
      a file it has opened less than eight levels deep: under the path itself, or under one with the
      same canonical form. */
  lemma ReachedIsOpened(files: Files)
    requires ReadAll(files).status == Done
    ensures files.sources.Some?
    ensures forall path | path in files.sources.value :: Reached(files, ReadAll(files).visits, path)
    ensures forall v, path | v in ReadAll(files).visits && Names(files, v, path) :: Reached(files, ReadAll(files).visits, path)
  {
    var load := ReadAll(files);
    TargetsFollow(files, files.sources.value, 0, {});
    TargetsOpenFresh(files, files.sources.value, 0, {});
    forall path | Covers(files, load, path) ensures Reached(files, load.visits, path) {
      if (files.canonical)(path).Some? && (files.canonical)(path).value in load.loaded {
        assert (files.canonical)(path).value in load.loaded - {};
      }
    }
  }

  // ---------------------------------------------------------------- when a load fails

  predicate Bad(file: File) {
    file.Unreadable? || (file.Readable? && file.broken)
  }

  ghost predicate FailsByFile(files: Files, load: Load) {
    load.status == Failed <==> exists v :: v in load.visits && Bad((files.open)(v.path))
  }

  lemma ThenFails(files: Files, first: Load, second: Load)
    requires FailsByFile(files, first) && FailsByFile(files, second) && first.status != Failed
    ensures FailsByFile(files, Then(first, second))
  {
    var both := Then(first, second);
    assert forall v :: v in both.visits <==> v in first.visits || v in second.visits;
  }

  lemma {:induction false} FileFails(files: Files, path: string, depth: nat, loaded: set<string>)
    requires depth <= MAX_INCLUDE_DEPTH + 1
    ensures FailsByFile(files, ReadFile(files, path, depth, loaded))
    decreases MAX_INCLUDE_DEPTH + 1 - depth, 1, 0
  {
    if !(depth > MAX_INCLUDE_DEPTH || Seen(files, path, loaded)) {
      var load, visit := ReadFile(files, path, depth, loaded), Visit(path, depth);
      match (files.open)(path) {
        case Missing =>
        case Unreadable =>
          assert visit in load.visits;
        case Readable(lines, broken) =>
          var inside := ReadLines(files, lines, depth, Marked(files, path, loaded));
          LinesFail(files, lines, depth, Marked(files, path, loaded));
          assert load.visits == [visit] + inside.visits;
          assert forall v :: v in load.visits <==> v == visit || v in inside.visits;
      }
    }
  }

  lemma {:induction false} LinesFail(files: Files, lines: seq<string>, depth: nat, loaded: set<string>)
    requires depth <= MAX_INCLUDE_DEPTH
    ensures FailsByFile(files, ReadLines(files, lines, depth, loaded))
    decreases MAX_INCLUDE_DEPTH + 1 - depth, 0, |lines|
  {
    if lines != [] {
      var first, line := ReadLine(files, lines[0], depth, loaded), LineOf(lines[0]);
      if line.IncludeLine? {
        ArgumentsFail(files, line.arguments, depth + 1, loaded);
      }
      if first.status != Failed {
        LinesFail(files, lines[1..], depth, first.loaded);
        ThenFails(files, first, ReadLines(files, lines[1..], depth, first.loaded));
      }
    }
  }

  lemma {:induction false} ArgumentsFail(files: Files, arguments: seq<string>, depth: nat, loaded: set<string>)
    requires depth <= MAX_INCLUDE_DEPTH + 1
    ensures FailsByFile(files, ReadArguments(files, arguments, depth, loaded))
    decreases MAX_INCLUDE_DEPTH + 1 - depth, 3, |arguments|
  {
    if arguments != [] {
      var first := ReadTargets(files, (files.targets)(arguments[0]), depth, loaded);
      TargetsFail(files, (files.targets)(arguments[0]), depth, loaded);
      if first.status != Failed {
        ArgumentsFail(files, arguments[1..], depth, first.loaded);
        ThenFails(files, first, ReadArguments(files, arguments[1..], depth, first.loaded));
      }
    }
  }

  lemma {:induction false} TargetsFail(files: Files, targets: seq<string>, depth: nat, loaded: set<string>)
    requires depth <= MAX_INCLUDE_DEPTH + 1
    ensures FailsByFile(files, ReadTargets(files, targets, depth, loaded))
    decreases MAX_INCLUDE_DEPTH + 1 - depth, 2, |targets|
  {
    if targets != [] {
      var first := ReadFile(files, targets[0], depth, loaded);
      FileFails(files, targets[0], depth, loaded);
      if first.status != Failed {
        TargetsFail(files, targets[1..], depth, first.loaded);
        ThenFails(files, first, ReadTargets(files, targets[1..], depth, first.loaded));
      }
    }
  }

  /** A load fails exactly when the starting files cannot be listed or one of the files it opens is
      there and cannot be read to its end; files that are missing do no harm. */
  lemma FailsExactly(files: Files)
    ensures ReadAll(files).status == Failed <==>
            files.sources.None? || exists v :: v in ReadAll(files).visits && Bad((files.open)(v.path))
    ensures ReadAll(files).status in {Done, Failed}
  {
    if files.sources.Some? {
      TargetsFail(files, files.sources.value, 0, {});
    }
  }

  // ---------------------------------------------------------------- what is taken from each file

  function LinesAt(files: Files, visit: Visit): seq<string> {
    var file := (files.open)(visit.path);
    if file.Readable? then file.lines else []
  }

  /** All that the files opened say, once for each time they were opened. */
  function Sum(files: Files, visits: seq<Visit>): multiset<Event> {
    if visits == [] then multiset{} else multiset(Own(LinesAt(files, visits[0]))) + Sum(files, visits[1..])
  }

  lemma {:induction false} SumOfConcat(files: Files, v: seq<Visit>, w: seq<Visit>)
    ensures Sum(files, v + w) == Sum(files, v) + Sum(files, w)
  {
    if v == [] {
      assert v + w == w;
    } else {
      assert (v + w)[1..] == v[1..] + w;
      SumOfConcat(files, v[1..], w);
    }
  }

  ghost predicate OccursIn(part: seq<Event>, events: seq<Event>) {
    exists i: nat :: StandsAt(part, events, i)
  }

  predicate StandsAt(part: seq<Event>, events: seq<Event>, i: nat) {
    i + |part| <= |events| && events[i..i + |part|] == part
  }

  lemma OccursInLonger(part: seq<Event>, before: seq<Event>, events: seq<Event>, after: seq<Event>)
    requires OccursIn(part, events)
    ensures OccursIn(part, before + events + after)
  {
    var i: nat :| StandsAt(part, events, i);
    var all, k := before + events + after, |before| + i;
    assert all[k..k + |part|] == events[i..i + |part|];
    assert StandsAt(part, all, k);
  }

  /** The files without Includes stand in the stream whole. */
  ghost predicate Whole(files: Files, load: Load) {
    forall v | v in load.visits && NoIncludes(LinesAt(files, v)) :: OccursIn(Own(LinesAt(files, v)), load.events)
  }

  lemma ThenWhole(files: Files, first: Load, second: Load)
    requires Whole(files, first) && Whole(files, second)
    ensures Whole(files, Then(first, second))
  {
    var both := Then(first, second);
    forall v | v in both.visits && NoIncludes(LinesAt(files, v)) ensures OccursIn(Own(LinesAt(files, v)), both.events) {
      var part := Own(LinesAt(files, v));
      assert [] + first.events + second.events == both.events && first.events + second.events + [] == both.events;
      if v in first.visits {
        OccursInLonger(part, [], first.events, second.events);
      } else {
        OccursInLonger(part, first.events, second.events, []);
      }
    }
  }

  /** Lines without Includes say just what they say. */
  lemma {:induction false} PlainLines(files: Files, lines: seq<string>, depth: nat, loaded: set<string>)
    requires depth <= MAX_INCLUDE_DEPTH && NoIncludes(lines)
    ensures ReadLines(files, lines, depth, loaded) == Load(Own(lines), loaded, [], Done)
  {
    if lines != [] {
      OwnIsSaid(lines[0]);
      assert NoIncludes(lines[1..]) by {
        assert forall i | 0 <= i < |lines| - 1 :: lines[1..][i] == lines[i + 1];
      }
      PlainLines(files, lines[1..], depth, loaded);
    }
  }

  /** The file itself, in front of what it includes. */
  lemma AddsFile(files: Files, visit: Visit, inside: Load, load: Load)
    requires load.events == inside.events && load.visits == [visit] + inside.visits
    requires multiset(inside.events) == multiset(Own(LinesAt(files, visit))) + Sum(files, inside.visits) && Whole(files, inside)
    requires NoIncludes(LinesAt(files, visit)) ==> inside.events == Own(LinesAt(files, visit))
    ensures multiset(load.events) == Sum(files, load.visits) && Whole(files, load)
  {
    assert load.visits[1..] == inside.visits;
    forall v | v in load.visits && NoIncludes(LinesAt(files, v)) ensures OccursIn(Own(LinesAt(files, v)), load.events) {
      if v == visit {
        assert StandsAt(Own(LinesAt(files, v)), load.events, 0);
      }
    }
  }

  lemma {:induction false} FileConserves(files: Files, path: string, depth: nat, loaded: set<string>)
    requires depth <= MAX_INCLUDE_DEPTH + 1 && ReadFile(files, path, depth, loaded).status != Failed
    ensures var load := ReadFile(files, path, depth, loaded);
            multiset(load.events) == Sum(files, load.visits) && Whole(files, load)
    decreases MAX_INCLUDE_DEPTH + 1 - depth, 1, 0
  {
    if !(depth > MAX_INCLUDE_DEPTH || Seen(files, path, loaded)) {
      var load, visit := ReadFile(files, path, depth, loaded), Visit(path, depth);
      var marked := Marked(files, path, loaded);
      match (files.open)(path) {
        case Missing => AddsFile(files, visit, Nothing(marked), load);
        case Unreadable =>
        case Readable(lines, _) =>
          LinesConserve(files, lines, depth, marked);
          if NoIncludes(lines) {
            PlainLines(files, lines, depth, marked);
          }
          AddsFile(files, visit, ReadLines(files, lines, depth, marked), load);
      }
    }
  }

  lemma {:induction false} LinesConserve(files: Files, lines: seq<string>, depth: nat, loaded: set<string>)
    requires depth <= MAX_INCLUDE_DEPTH && ReadLines(files, lines, depth, loaded).status != Failed
    ensures var load := ReadLines(files, lines, depth, loaded);
            multiset(load.events) == multiset(Own(lines)) + Sum(files, load.visits) && Whole(files, load)
    decreases MAX_INCLUDE_DEPTH + 1 - depth, 0, |lines|
  {
    if lines != [] {
      var first, line := ReadLine(files, lines[0], depth, loaded), LineOf(lines[0]);
      var rest := ReadLines(files, lines[1..], depth, first.loaded);
      if line.IncludeLine? {
        ArgumentsConserve(files, line.arguments, depth + 1, loaded);
      }
      LinesConserve(files, lines[1..], depth, first.loaded);
      ThenWhole(files, first, rest);
      SumOfConcat(files, first.visits, rest.visits);
      assert multiset(first.events) == multiset(OwnOf(lines[0])) + Sum(files, first.visits);
    }
  }

  lemma {:induction false} ArgumentsConserve(files: Files, arguments: seq<string>, depth: nat, loaded: set<string>)
    requires depth <= MAX_INCLUDE_DEPTH + 1 && ReadArguments(files, arguments, depth, loaded).status != Failed
    ensures var load := ReadArguments(files, arguments, depth, loaded);
            multiset(load.events) == Sum(files, load.visits) && Whole(files, load)
    decreases MAX_INCLUDE_DEPTH + 1 - depth, 3, |arguments|
  {
    if arguments != [] {
      var first := ReadTargets(files, (files.targets)(arguments[0]), depth, loaded);
      var rest := ReadArguments(files, arguments[1..], depth, first.loaded);
      TargetsConserve(files, (files.targets)(arguments[0]), depth, loaded);
      ArgumentsConserve(files, arguments[1..], depth, first.loaded);
      ThenWhole(files, first, rest);
      SumOfConcat(files, first.visits, rest.visits);
    }
  }

  lemma {:induction false} TargetsConserve(files: Files, targets: seq<string>, depth: nat, loaded: set<string>)
    requires depth <= MAX_INCLUDE_DEPTH + 1 && ReadTargets(files, targets, depth, loaded).status != Failed
    ensures var load := ReadTargets(files, targets, depth, loaded);
            multiset(load.events) == Sum(files, load.visits) && Whole(files, load)
    decreases MAX_INCLUDE_DEPTH + 1 - depth, 2, |targets|
  {
    if targets != [] {
      var first := ReadFile(files, targets[0], depth, loaded);
      var rest := ReadTargets(files, targets[1..], depth, first.loaded);
      FileConserves(files, targets[0], depth, loaded);
      TargetsConserve(files, targets[1..], depth, first.loaded);
      ThenWhole(files, first, rest);
      SumOfConcat(files, first.visits, rest.visits);
    }
  }

  /** A load that goes through has taken from the files it opened every Host line and every setting
      just once for each time it opened them, and nothing else; and what a file without Includes says
      stands in the stream in one piece, in line order, however deep the file is nested. */
  lemma LoadConserves(files: Files)
    requires ReadAll(files).status == Done
    ensures multiset(ReadAll(files).events) == Sum(files, ReadAll(files).visits)
    ensures forall v, events | v in ReadAll(files).visits && NoIncludes(LinesAt(files, v)) && Spells(LinesAt(files, v), events) ::
              OccursIn(events, ReadAll(files).events)
  {
    TargetsConserve(files, files.sources.value, 0, {});
    forall v | v in ReadAll(files).visits ensures forall events :: Spells(LinesAt(files, v), events) <==> events == Own(LinesAt(files, v)) {
      OwnSpells(LinesAt(files, v));
    }
  }

  // ---------------------------------------------------------------- Includes in place

  lemma TextReads(files: Files, text: string, loaded: set<string>)
    requires ReadLine(files, text, 0, loaded).status == Done
    ensures ReadLines(files, [text], 0, loaded) == ReadLine(files, text, 0, loaded)
  {
    var inside := ReadLine(files, text, 0, loaded);
    assert [text][1..] == [] && ReadLines(files, [], 0, inside.loaded) == Nothing(inside.loaded);
  }

  lemma OneAfterOther(files: Files, x: seq<string>, y: seq<string>, loaded: set<string>)
    requires var first := ReadLines(files, x, 0, loaded);
             first.status == Done && ReadLines(files, y, 0, first.loaded).status == Done
    ensures var first, both := ReadLines(files, x, 0, loaded), ReadLines(files, x + y, 0, loaded);
            && both.events == first.events + ReadLines(files, y, 0, first.loaded).events
            && both.loaded == ReadLines(files, y, 0, first.loaded).loaded && both.status == Done
  {
    ReadLinesConcat(files, x, y, 0, loaded);
  }

  lemma LinesInPlace(files: Files, inner: string, a: seq<string>, text: string, b: seq<string>, c: seq<string>, loaded: set<string>)
    requires (files.open)(inner) == Readable(c, false) && !Seen(files, inner, loaded)
    requires IsInclude(text) && |Arguments(text)| == 1 && (files.targets)(Arguments(text)[0]) == [inner]
    requires NoIncludes(a) && NoIncludes(b) && NoIncludes(c)
    ensures var load := ReadLines(files, a + [text] + b, 0, loaded);
            load.status == Done && load.events == Own(a + c + b)
  {
    PlainLines(files, a, 0, loaded);
    InnerReads(files, inner, text, c, loaded);
    TextReads(files, text, loaded);
    OneAfterOther(files, a, [text], loaded);
    PlainLines(files, b, 0, ReadLines(files, a + [text], 0, loaded).loaded);
    OneAfterOther(files, a + [text], b, loaded);
    OwnOfConcat(a, c);
    OwnOfConcat(a + c, b);
  }

  lemma ReadsOnly(files: Files, path: string, lines: seq<string>)
    requires files.sources == Some([path]) && (files.open)(path) == Readable(lines, false)
    ensures var load := ReadLines(files, lines, 0, Marked(files, path, {}));
            ReadAll(files).events == load.events && ReadAll(files).status == load.status
  {
    var first := ReadFile(files, path, 0, {});
    assert [path][1..] == [];
    assert ReadTargets(files, [], 0, first.loaded) == Nothing(first.loaded);
    assert first.events + [] == first.events;
  }

  /** The file `inner` is read where the Include stands: the stream is that of its lines put in the
      place of the Include. */
  lemma IncludeInPlace(files: Files, outer: string, inner: string, a: seq<string>, text: string, b: seq<string>, c: seq<string>)
    requires files.sources == Some([outer]) && (files.open)(outer) == Readable(a + [text] + b, false)
    requires (files.open)(inner) == Readable(c, false)
    requires (files.canonical)(outer) == None || (files.canonical)(outer) != (files.canonical)(inner)
    requires IsInclude(text) && |Arguments(text)| == 1 && (files.targets)(Arguments(text)[0]) == [inner]
    requires NoIncludes(a) && NoIncludes(b) && NoIncludes(c)
    ensures ReadAll(files).status == Done && Spells(a + c + b, ReadAll(files).events)
  {
    LinesInPlace(files, inner, a, text, b, c, Marked(files, outer, {}));
    ReadsOnly(files, outer, a + [text] + b);
    OwnSpells(a + c + b);
  }

  lemma InnerReads(files: Files, inner: string, text: string, c: seq<string>, loaded: set<string>)
    requires (files.open)(inner) == Readable(c, false) && NoIncludes(c)
    requires IsInclude(text) && |Arguments(text)| == 1 && (files.targets)(Arguments(text)[0]) == [inner]
    requires !Seen(files, inner, loaded)
    ensures var load := ReadLine(files, text, 0, loaded);
            load.status == Done && load.events == Own(c)
  {
    OwnIsSaid(text);
    var marked := Marked(files, inner, loaded);
    PlainLines(files, c, 1, marked);
    assert ReadFile(files, inner, 1, loaded) == Load(Own(c), marked, [Visit(inner, 1)], Done);
    assert [inner][1..] == [] && Arguments(text)[1..] == [];
    assert ReadTargets(files, [], 1, marked) == Nothing(marked);
    assert ReadTargets(files, [inner], 1, loaded).events == Own(c) + [];
    assert ReadArguments(files, [], 1, marked) == Nothing(marked);
    assert ReadArguments(files, Arguments(text), 1, loaded).events == Own(c) + [] + [];
  }

  // ---------------------------------------------------------------- every stream is a text

  /** The lines are found in files that were opened. */
  ghost predicate From(files: Files, lines: seq<string>, visits: seq<Visit>) {
    forall text | text in lines :: !IsInclude(text) && exists v :: v in visits && text in LinesAt(files, v)
  }

  ghost predicate TextOf(files: Files, lines: seq<string>, load: Load) {
    Own(lines) == load.events && From(files, lines, load.visits)
  }

  lemma ThenText(files: Files, x: seq<string>, first: Load, y: seq<string>, second: Load)
    requires TextOf(files, x, first) && TextOf(files, y, second)
    ensures TextOf(files, x + y, Then(first, second))
  {
    OwnOfConcat(x, y);
    var both := Then(first, second);
    forall text | text in x + y ensures !IsInclude(text) && exists v :: v in both.visits && text in LinesAt(files, v) {
      if text in x {
        var v :| v in first.visits && text in LinesAt(files, v);
        assert v in both.visits;
      } else {
        var v :| v in second.visits && text in LinesAt(files, v);
        assert v in both.visits;
      }
    }
  }

  lemma {:induction false} FileText(files: Files, path: string, depth: nat, loaded: set<string>) returns (lines: seq<string>)
    requires depth <= MAX_INCLUDE_DEPTH + 1
    ensures TextOf(files, lines, ReadFile(files, path, depth, loaded))
    decreases MAX_INCLUDE_DEPTH + 1 - depth, 1, 0
  {
    lines := [];
    if !(depth > MAX_INCLUDE_DEPTH || Seen(files, path, loaded)) {
      match (files.open)(path) {
        case Missing =>
        case Unreadable =>
        case Readable(all, _) =>
          lines := LinesText(files, all, Visit(path, depth), Marked(files, path, loaded));
          InsideOfFile(files, path, depth, loaded, all);
      }
    }
  }

  lemma InsideOfFile(files: Files, path: string, depth: nat, loaded: set<string>, lines: seq<string>)
    requires depth <= MAX_INCLUDE_DEPTH && !Seen(files, path, loaded)
    requires (files.open)(path).Readable? && (files.open)(path).lines == lines
    ensures var load, inside := ReadFile(files, path, depth, loaded), ReadLines(files, lines, depth, Marked(files, path, loaded));
            load.events == inside.events && load.visits == [Visit(path, depth)] + inside.visits
  {
  }

  lemma {:induction false} LinesText(files: Files, lines: seq<string>, visit: Visit, loaded: set<string>) returns (texts: seq<string>)
    requires visit.depth <= MAX_INCLUDE_DEPTH && forall text | text in lines :: text in LinesAt(files, visit)
    ensures var load := ReadLines(files, lines, visit.depth, loaded);
            Own(texts) == load.events && From(files, texts, [visit] + load.visits)
    decreases MAX_INCLUDE_DEPTH + 1 - visit.depth, 0, |lines|
  {
    texts := [];
    if lines != [] {
      var text, depth := lines[0], visit.depth;
      var first := ReadLine(files, text, depth, loaded);
      OwnIsSaid(text);
      if IsInclude(text) {
        texts := ArgumentsText(files, Arguments(text), depth + 1, loaded);
      } else {
        texts := [text];
        assert Own([text][1..]) == [] && OwnOf(text) + [] == OwnOf(text);
        assert visit in [visit] + first.visits && text in lines;
      }
      assert From(files, texts, [visit] + first.visits) by {
        assert forall v :: v in [visit] + first.visits <==> v == visit || v in first.visits;
      }
      if first.status != Failed {
        var rest := ReadLines(files, lines[1..], depth, first.loaded);
        var more := LinesText(files, lines[1..], visit, first.loaded);
        ThenText(files, texts, first.(visits := [visit] + first.visits), more, rest.(visits := [visit] + rest.visits));
        var twice, once := [visit] + first.visits + ([visit] + rest.visits), [visit] + (first.visits + rest.visits);
        assert forall v :: v in twice <==> v in once;
        texts := texts + more;
      }
    }
  }

  lemma {:induction false} ArgumentsText(files: Files, arguments: seq<string>, depth: nat, loaded: set<string>) returns (lines: seq<string>)
    requires depth <= MAX_INCLUDE_DEPTH + 1
    ensures TextOf(files, lines, ReadArguments(files, arguments, depth, loaded))
    decreases MAX_INCLUDE_DEPTH + 1 - depth, 3, |arguments|
  {
    lines := [];
    if arguments != [] {
      var first := ReadTargets(files, (files.targets)(arguments[0]), depth, loaded);
      lines := TargetsText(files, (files.targets)(arguments[0]), depth, loaded);
      if first.status != Failed {
        var more := ArgumentsText(files, arguments[1..], depth, first.loaded);
        ThenText(files, lines, first, more, ReadArguments(files, arguments[1..], depth, first.loaded));
        lines := lines + more;
      }
    }
  }

  lemma {:induction false} TargetsText(files: Files, targets: seq<string>, depth: nat, loaded: set<string>) returns (lines: seq<string>)
    requires depth <= MAX_INCLUDE_DEPTH + 1
    ensures TextOf(files, lines, ReadTargets(files, targets, depth, loaded))
    decreases MAX_INCLUDE_DEPTH + 1 - depth, 2, |targets|
  {
    lines := [];
    if targets != [] {
      var first := ReadFile(files, targets[0], depth, loaded);
      lines := FileText(files, targets[0], depth, loaded);
      if first.status != Failed {
        var more := TargetsText(files, targets[1..], depth, first.loaded);
        ThenText(files, lines, first, more, ReadTargets(files, targets[1..], depth, first.loaded));
        lines := lines + more;
      }
    }
  }

  /** Whatever a load has read, whole or not, is one text without Includes, made of lines of the files
      it has opened. */
  lemma LoadIsText(files: Files) returns (lines: seq<string>)
    ensures Spells(lines, ReadAll(files).events)
    ensures From(files, lines, ReadAll(files).visits)
  {
    lines := [];
    if files.sources.Some? {
      lines := TargetsText(files, files.sources.value, 0, {});
    }
    OwnSpells(lines);
  }

  /** A single file without Includes is its own text. */
  lemma PlainFileIsText(files: Files, path: string, lines: seq<string>)
    requires files.sources == Some([path]) && (files.open)(path) == Readable(lines, false) && NoIncludes(lines)
    ensures ReadAll(files).status == Done && Spells(lines, ReadAll(files).events)
  {
    PlainLines(files, lines, 0, Marked(files, path, {}));
    ReadsOnly(files, path, lines);
    OwnSpells(lines);
  }
}
