/** The configuration parser: reads the files into host blocks, through one block that is being
    filled across nested files, and folds the blocks into the table of hosts. */
module ConfigFiles {
  import opened Text
  import opened Glob
  import opened HostConfig
  import opened HostTable
  import opened Includes
  import opened Reload

  class HostBlock {
    const patterns: seq<string>
    var directives: seq<Setting>

    constructor (patterns: seq<string>)
      ensures this.patterns == patterns && directives == []
    {
      this.patterns := patterns;
      directives := [];
    }

    ghost function View(): Block
      reads this
    {
      Block(patterns, directives)
    }

    method AppliesTo(alias: string) returns (applies: bool)
      ensures applies == Applies(patterns, alias)
    {
      var matched := false;
      for i := 0 to |patterns|
        invariant matched == Chosen(patterns[..i], alias)
        invariant !Excluded(patterns[..i], alias)
      {
        ChosenStep(patterns, alias, i);
        var pattern := patterns[i];
        if Negated(pattern) {
          var excluded, _ := GlobMatch(pattern[1..], alias);
          if excluded {
            return false;
          }
        } else {
          var covered, _ := GlobMatch(pattern, alias);
          if covered {
            matched := true;
          }
        }
      }
      assert patterns[..|patterns|] == patterns;
      return matched;
    }
  }

  lemma ChosenStep(patterns: seq<string>, alias: string, i: nat)
    requires i < |patterns|
    ensures Chosen(patterns[..i + 1], alias) <==>
            Chosen(patterns[..i], alias) || (!Negated(patterns[i]) && PatternCovers(patterns[i], alias))
    ensures Excluded(patterns[..i + 1], alias) <==>
            Excluded(patterns[..i], alias) || (Negated(patterns[i]) && PatternCovers(patterns[i][1..], alias))
    ensures Excluded(patterns[..i + 1], alias) ==> Excluded(patterns, alias)
  {
    var next, now := patterns[..i + 1], patterns[..i];
    assert next == now + [patterns[i]];
    assert next[i] == patterns[i];
    assert forall j | 0 <= j < i :: next[j] == now[j] == patterns[j];
  }

  /** The block being filled, carried across nested files. */
  class ParseState {
    var current: HostBlock?

    constructor ()
      ensures current == null
    {
      current := null;
    }
  }

  /** The canonical paths already loaded; `visits` records what was really opened. */
  class LoadedFiles {
    var paths: set<string>
    ghost var visits: seq<Visit>

    constructor ()
      ensures paths == {} && visits == []
    {
      paths := {};
      visits := [];
    }
  }

  /** Where a load stands: what it has seen, the blocks and the files opened. */
  datatype Standing = Standing(loaded: set<string>, views: seq<Block>, visits: seq<Visit>)

  /** Reading has come from one standing to the other, when the blocks from `base` on were opened by
      this load: the stream has grown them, and nothing else has changed. */
  ghost predicate Brings(load: Load, from: Standing, to: Standing, base: nat) {
    && base <= |from.views|
    && to.loaded == load.loaded
    && to.views == from.views[..base] + GroupOnto(from.views[base..], load.events)
    && to.visits == from.visits + load.visits
  }

  lemma BringsNothing(at: Standing, base: nat)
    requires base <= |at.views|
    ensures Brings(Nothing(at.loaded), at, at, base)
  {
  }

  lemma BringsOne(event: Event, from: Standing, to: Standing, base: nat)
    requires base <= |from.views| && to.loaded == from.loaded && to.visits == from.visits
    requires to.views == from.views[..base] + Grown(from.views[base..], event)
    ensures Brings(Load([event], from.loaded, [], Done), from, to, base)
  {
    assert [event][1..] == [];
    assert GroupOnto(from.views[base..], [event]) == GroupOnto(Grown(from.views[base..], event), []);
  }

  lemma BringsThen(first: Load, second: Load, from: Standing, mid: Standing, to: Standing, base: nat)
    requires Brings(first, from, mid, base) && Brings(second, mid, to, base)
    ensures Brings(Then(first, second), from, to, base)
  {
    GroupOntoConcat(from.views[base..], first.events, second.events);
    assert mid.views[..base] == from.views[..base];
    assert mid.views[base..] == GroupOnto(from.views[base..], first.events);
  }

  lemma BringsUnread(files: Files, path: string, depth: nat, from: Standing, to: Standing, base: nat)
    requires depth <= MAX_INCLUDE_DEPTH && !Seen(files, path, from.loaded) && base <= |from.views|
    requires !(files.open)(path).Readable?
    requires to == Standing(Marked(files, path, from.loaded), from.views, from.visits + [Visit(path, depth)])
    ensures ReadFile(files, path, depth, from.loaded).status ==
            if (files.open)(path).Missing? then NotFound else Failed
    ensures Brings(ReadFile(files, path, depth, from.loaded), from, to, base)
  {
  }

  /** The file has been opened and its lines read. */
  lemma BringsFile(files: Files, path: string, depth: nat, lines: seq<string>, broken: bool, from: Standing, to: Standing, base: nat)
    requires depth <= MAX_INCLUDE_DEPTH && !Seen(files, path, from.loaded)
    requires (files.open)(path) == Readable(lines, broken)
    requires var marked := Marked(files, path, from.loaded);
             Brings(ReadLines(files, lines, depth, marked),
                    Standing(marked, from.views, from.visits + [Visit(path, depth)]), to, base)
    ensures Brings(ReadFile(files, path, depth, from.loaded), from, to, base)
    ensures ReadFile(files, path, depth, from.loaded).status ==
            if broken then Failed
            else ReadLines(files, lines, depth, Marked(files, path, from.loaded)).status
  {
    var inside := ReadLines(files, lines, depth, Marked(files, path, from.loaded));
    assert [] + inside.events == inside.events;
    assert from.visits + [Visit(path, depth)] + inside.visits == from.visits + ([Visit(path, depth)] + inside.visits);
  }

  /** The first `i` lines have been carried out: they are `done`, and the rest is missing from the
      whole. */
  ghost predicate LinesDone(files: Files, lines: seq<string>, depth: nat, i: nat, done: Load, whole: Load, from: Standing, here: Standing, base: nat)
    requires depth <= MAX_INCLUDE_DEPTH
  {
    && i <= |lines| && done.status == Done
    && whole == Then(done, ReadLines(files, lines[i..], depth, done.loaded))
    && Brings(done, from, here, base)
  }

  lemma LinesBegin(files: Files, lines: seq<string>, depth: nat, from: Standing, base: nat)
    requires depth <= MAX_INCLUDE_DEPTH && base <= |from.views|
    ensures LinesDone(files, lines, depth, 0, Nothing(from.loaded), ReadLines(files, lines, depth, from.loaded), from, from, base)
  {
    assert lines[0..] == lines;
    BringsNothing(from, base);
  }

  lemma LinesStep(files: Files, lines: seq<string>, depth: nat, i: nat, done: Load, whole: Load, from: Standing, here: Standing, next: Standing, base: nat)
    requires depth <= MAX_INCLUDE_DEPTH && i < |lines|
    requires LinesDone(files, lines, depth, i, done, whole, from, here, base)
    requires Brings(ReadLine(files, lines[i], depth, here.loaded), here, next, base)
    ensures var step := ReadLine(files, lines[i], depth, here.loaded);
            if step.status == Failed then whole.status == Failed && Brings(whole, from, next, base)
            else LinesDone(files, lines, depth, i + 1, Then(done, step), whole, from, next, base)
  {
    var step := ReadLine(files, lines[i], depth, here.loaded);
    BringsThen(done, step, from, here, next, base);
    assert lines[i..][0] == lines[i] && lines[i..][1..] == lines[i + 1..];
    if step.status != Failed {
      ThenAssociates(done, step, ReadLines(files, lines[i + 1..], depth, step.loaded));
    }
  }

  lemma LinesEnd(files: Files, lines: seq<string>, depth: nat, done: Load, whole: Load, from: Standing, here: Standing, base: nat)
    requires depth <= MAX_INCLUDE_DEPTH
    requires LinesDone(files, lines, depth, |lines|, done, whole, from, here, base)
    ensures whole.status == Done && Brings(whole, from, here, base)
  {
    assert lines[|lines|..] == [];
    assert whole == done;
  }

  /** The same for the arguments of an Include. */
  ghost predicate ArgumentsDone(files: Files, arguments: seq<string>, depth: nat, i: nat, done: Load, whole: Load, from: Standing, here: Standing, base: nat)
    requires depth <= MAX_INCLUDE_DEPTH + 1
  {
    && i <= |arguments| && done.status == Done
    && whole == Then(done, ReadArguments(files, arguments[i..], depth, done.loaded))
    && Brings(done, from, here, base)
  }

  lemma ArgumentsBegin(files: Files, arguments: seq<string>, depth: nat, from: Standing, base: nat)
    requires depth <= MAX_INCLUDE_DEPTH + 1 && base <= |from.views|
    ensures ArgumentsDone(files, arguments, depth, 0, Nothing(from.loaded),
                          ReadArguments(files, arguments, depth, from.loaded), from, from, base)
  {
    assert arguments[0..] == arguments;
    BringsNothing(from, base);
  }

  lemma ArgumentsStep(files: Files, arguments: seq<string>, depth: nat, i: nat, done: Load, whole: Load, from: Standing, here: Standing, next: Standing, base: nat)
    requires depth <= MAX_INCLUDE_DEPTH + 1 && i < |arguments|
    requires ArgumentsDone(files, arguments, depth, i, done, whole, from, here, base)
    requires Brings(ReadTargets(files, (files.targets)(arguments[i]), depth, here.loaded), here, next, base)
    ensures var step := ReadTargets(files, (files.targets)(arguments[i]), depth, here.loaded);
            if step.status == Failed then whole.status == Failed && Brings(whole, from, next, base)
            else ArgumentsDone(files, arguments, depth, i + 1, Then(done, step), whole, from, next, base)
  {
    var step := ReadTargets(files, (files.targets)(arguments[i]), depth, here.loaded);
    BringsThen(done, step, from, here, next, base);
    assert arguments[i..][0] == arguments[i] && arguments[i..][1..] == arguments[i + 1..];
    if step.status != Failed {
      ThenAssociates(done, step, ReadArguments(files, arguments[i + 1..], depth, step.loaded));
    }
  }

  lemma ArgumentsEnd(files: Files, arguments: seq<string>, depth: nat, done: Load, whole: Load, from: Standing, here: Standing, base: nat)
    requires depth <= MAX_INCLUDE_DEPTH + 1
    requires ArgumentsDone(files, arguments, depth, |arguments|, done, whole, from, here, base)
    ensures whole.status == Done && Brings(whole, from, here, base)
  {
    assert arguments[|arguments|..] == [];
    assert whole == done;
  }

  /** The same for a list of files, of which a missing one is skipped. */
  ghost predicate TargetsDone(files: Files, targets: seq<string>, depth: nat, j: nat, done: Load, whole: Load, from: Standing, here: Standing, base: nat)
    requires depth <= MAX_INCLUDE_DEPTH + 1
  {
    && j <= |targets| && done.status == Done
    && whole == Then(done, ReadTargets(files, targets[j..], depth, done.loaded))
    && Brings(done, from, here, base)
  }

  lemma TargetsBegin(files: Files, targets: seq<string>, depth: nat, from: Standing, base: nat)
    requires depth <= MAX_INCLUDE_DEPTH + 1 && base <= |from.views|
    ensures TargetsDone(files, targets, depth, 0, Nothing(from.loaded),
                        ReadTargets(files, targets, depth, from.loaded), from, from, base)
  {
    assert targets[0..] == targets;
    BringsNothing(from, base);
  }

  lemma TargetsStep(files: Files, targets: seq<string>, depth: nat, j: nat, done: Load, whole: Load, from: Standing, here: Standing, next: Standing, base: nat)
    requires depth <= MAX_INCLUDE_DEPTH + 1 && j < |targets|
    requires TargetsDone(files, targets, depth, j, done, whole, from, here, base)
    requires Brings(ReadFile(files, targets[j], depth, here.loaded), here, next, base)
    ensures var step := ReadFile(files, targets[j], depth, here.loaded);
            if step.status == Failed then whole.status == Failed && Brings(whole, from, next, base)
            else TargetsDone(files, targets, depth, j + 1, Then(done, step.(status := Done)), whole, from, next, base)
  {
    var step := ReadFile(files, targets[j], depth, here.loaded);
    BringsThen(done, step.(status := Done), from, here, next, base);
    assert targets[j..][0] == targets[j] && targets[j..][1..] == targets[j + 1..];
    if step.status != Failed {
      ThenAssociates(done, step.(status := Done), ReadTargets(files, targets[j + 1..], depth, step.loaded));
    }
  }

  lemma TargetsEnd(files: Files, targets: seq<string>, depth: nat, done: Load, whole: Load, from: Standing, here: Standing, base: nat)
    requires depth <= MAX_INCLUDE_DEPTH + 1
    requires TargetsDone(files, targets, depth, |targets|, done, whole, from, here, base)
    ensures whole.status == Done && Brings(whole, from, here, base)
  {
    assert targets[|targets|..] == [];
    assert whole == done;
  }

  /** The blocks that loads of these files, one after another, leave behind. */
  ghost function Loads(past: seq<Files>): seq<seq<Block>> {
    seq(|past|, i requires 0 <= i < |past| => Group(ReadAll(past[i]).events))
  }

  lemma LoadsSnoc(past: seq<Files>, files: Files)
    ensures Flatten(Loads(past + [files])) == Flatten(Loads(past)) + Group(ReadAll(files).events)
  {
    FlattenSnoc(Loads(past), Group(ReadAll(files).events));
    assert Loads(past + [files]) == Loads(past) + [Group(ReadAll(files).events)];
  }

  /** Earlier loads of the same files, or of files repaired since, hold nothing the latest has not. */
  lemma LoadsAreCuts(past: seq<Files>, files: Files)
    requires forall before | before in past :: Repairs(before, files)
    ensures forall cut | cut in Loads(past) :: CutFrom(cut, Group(ReadAll(files).events))
  {
    forall cut | cut in Loads(past) ensures CutFrom(cut, Group(ReadAll(files).events)) {
      var i :| 0 <= i < |past| && cut == Group(ReadAll(past[i]).events);
      EarlierLoadIsCut(past[i], files);
    }
  }

  lemma RepairedIsSuperseded(home: string -> string, past: seq<Files>, files: Files)
    requires forall before | before in past :: Repairs(before, files)
    ensures Superseded(home, Flatten(Loads(past)), Group(ReadAll(files).events))
  {
    var latest := Group(ReadAll(files).events);
    LoadsAreCuts(past, files);
    EarlierLoadsAbsorbed(home, Loads(past), latest);
    LatestShownExactly(home, Flatten(Loads(past)), latest);
  }

  /** What a table of all loads shows of the latest. */
  lemma LatestAfter(home: string -> string, past: seq<Files>, files: Files, order: seq<string>, configs: map<string, SSHConfig>)
    requires var all := Flatten(Loads(past)) + Group(ReadAll(files).events);
             order == Order(all) && configs == Table(home, all)
    ensures Shown(home, files, order, configs) <==> Superseded(home, Flatten(Loads(past)), Group(ReadAll(files).events))
    ensures (forall before | before in past :: Repairs(before, files)) ==> Shown(home, files, order, configs)
  {
    LatestShownExactly(home, Flatten(Loads(past)), Group(ReadAll(files).events));
    if forall before | before in past :: Repairs(before, files) {
      RepairedIsSuperseded(home, past, files);
    }
  }

  /** The table is what these files say and nothing else. */
  ghost predicate Shown(home: string -> string, files: Files, order: seq<string>, configs: map<string, SSHConfig>) {
    order == Order(Group(ReadAll(files).events)) && configs == Table(home, Group(ReadAll(files).events))
  }

  class ConfigParser {
    const home: string -> string
    var blocks: seq<HostBlock>
    var configs: map<string, SSHConfig>
    var order: seq<string>
    /** The blocks as a set, for framing. */
    ghost var footprint: set<HostBlock>
    /** What the blocks hold. */
    ghost var views: seq<Block>
    /** The files as each load so far has found them. */
    ghost var past: seq<Files>
    /** The blocks the table was built from. */
    ghost var settled: seq<Block>

    ghost predicate Valid()
      reads this, footprint
    {
      Holds() && Tabled() && views == Flatten(Loads(past))
    }

    /** The table is that of the blocks it was built from. */
    ghost predicate Tabled()
      reads this
    {
      order == Order(settled) && configs == Table(home, settled)
    }

    ghost predicate ShowsOnly(files: Files)
      reads this
    {
      Shown(home, files, order, configs)
    }

    lemma TabledIsIndexed()
      requires Tabled()
      ensures forall i | 0 <= i < |order| :: order[i] in configs
    {
    }

    /** The blocks are distinct objects and hold what `views` says. */
    ghost predicate Holds()
      reads this, footprint
    {
      && |views| == |blocks|
      && (forall i | 0 <= i < |blocks| :: blocks[i] in footprint && blocks[i].View() == views[i])
      && (forall i, j | 0 <= i < j < |blocks| :: blocks[i] != blocks[j])
    }

    /** The aliasing that filling relies on: the current block is the last of the list, and there is
        none exactly until this load has opened one. */
    ghost predicate Filling(state: ParseState, base: nat)
      reads this, state, footprint
    {
      && Holds()
      && base <= |blocks|
      && (state.current == null <==> |blocks| == base)
      && (state.current != null ==> state.current == blocks[|blocks| - 1])
    }

    constructor (home: string -> string)
      ensures Valid() && this.home == home
      ensures views == [] && past == [] && settled == [] && configs == map[] && order == []
    {
      this.home := home;
      blocks := [];
      views := [];
      footprint := {};
      past := [];
      settled := [];
      configs := map[];
      order := [];
    }

    method OpenBlock(patterns: seq<string>) returns (block: HostBlock)
      requires Holds()
      modifies this`blocks, this`views, this`footprint
      ensures Holds() && fresh(block) && footprint == old(footprint) + {block}
      ensures blocks == old(blocks) + [block] && views == old(views) + [Block(patterns, [])]
    {
      block := new HostBlock(patterns);
      blocks := blocks + [block];
      views := views + [block.View()];
      footprint := footprint + {block};
    }

    /** A directive joins the block being filled, if there is one. */
    method Fill(state: ParseState, setting: Setting, ghost base: nat)
      requires Filling(state, base)
      modifies this`views, footprint
      ensures Filling(state, base)
      ensures views == old(views)[..base] + Grown(old(views)[base..], Directive(setting))
    {
      if state.current != null {
        ghost var last := |blocks| - 1;
        state.current.directives := state.current.directives + [setting];
        views := views[..last] + [state.current.View()];
        assert old(views)[base..][last - base] == old(views)[last];
      } else {
        assert old(views)[base..] == [];
      }
    }

    ghost function Here(loaded: LoadedFiles): Standing
      reads this, loaded
    {
      Standing(loaded.paths, views, loaded.visits)
    }

    method LoadFile(files: Files, state: ParseState, path: string, depth: nat, loaded: LoadedFiles, ghost base: nat)
      returns (status: Status)
      requires Filling(state, base) && depth <= MAX_INCLUDE_DEPTH + 1
      modifies this`blocks, this`views, this`footprint, state, loaded, footprint
      ensures Filling(state, base) && fresh(footprint - old(footprint))
      ensures status == ReadFile(files, path, depth, old(loaded.paths)).status
      ensures Brings(ReadFile(files, path, depth, old(loaded.paths)), old(Here(loaded)), Here(loaded), base)
      decreases MAX_INCLUDE_DEPTH + 1 - depth, 1
    {
      ghost var before := Here(loaded);
      if depth > MAX_INCLUDE_DEPTH {
        BringsNothing(before, base);
        return Done;
      }
      var canonical := (files.canonical)(path);
      if canonical.Some? {
        if canonical.value in loaded.paths {
          BringsNothing(before, base);
          return Done;
        }
        loaded.paths := loaded.paths + {canonical.value};
      }
      loaded.visits := loaded.visits + [Visit(path, depth)];
      var file := (files.open)(path);
      if !file.Readable? {
        BringsUnread(files, path, depth, before, Here(loaded), base);
        return if file.Missing? then NotFound else Failed;
      }
      status := LoadLines(files, state, file.lines, depth, loaded, base);
      BringsFile(files, path, depth, file.lines, file.broken, before, Here(loaded), base);
      if status == Done && file.broken {
        status := Failed;
      }
    }

    /** The scanning loop of LoadFile, after the file has been opened. */
    method LoadLines(files: Files, state: ParseState, lines: seq<string>, depth: nat, loaded: LoadedFiles, ghost base: nat)
      returns (status: Status)
      requires Filling(state, base) && depth <= MAX_INCLUDE_DEPTH
      modifies this`blocks, this`views, this`footprint, state, loaded, footprint
      ensures Filling(state, base) && fresh(footprint - old(footprint))
      ensures status == ReadLines(files, lines, depth, old(loaded.paths)).status
      ensures Brings(ReadLines(files, lines, depth, old(loaded.paths)), old(Here(loaded)), Here(loaded), base)
      decreases MAX_INCLUDE_DEPTH + 1 - depth, 0, 1
    {
      ghost var start, done := Here(loaded), Nothing(loaded.paths);
      ghost var whole := ReadLines(files, lines, depth, loaded.paths);
      LinesBegin(files, lines, depth, start, base);
      for i := 0 to |lines|
        invariant Filling(state, base) && fresh(footprint - old(footprint))
        invariant LinesDone(files, lines, depth, i, done, whole, start, Here(loaded), base)
      {
        ghost var before, step := Here(loaded), ReadLine(files, lines[i], depth, loaded.paths);
        status := LoadLine(files, state, lines[i], depth, loaded, base);
        LinesStep(files, lines, depth, i, done, whole, start, before, Here(loaded), base);
        if status != Done {
          return;
        }
        done := Then(done, step);
      }
      LinesEnd(files, lines, depth, done, whole, start, Here(loaded), base);
      return Done;
    }

    /** The body of the scanning loop. */
    method LoadLine(files: Files, state: ParseState, text: string, depth: nat, loaded: LoadedFiles, ghost base: nat)
      returns (status: Status)
      requires Filling(state, base) && depth <= MAX_INCLUDE_DEPTH
      modifies this`blocks, this`views, this`footprint, state, loaded, footprint
      ensures Filling(state, base) && fresh(footprint - old(footprint))
      ensures status == ReadLine(files, text, depth, old(loaded.paths)).status
      ensures Brings(ReadLine(files, text, depth, old(loaded.paths)), old(Here(loaded)), Here(loaded), base)
      decreases MAX_INCLUDE_DEPTH + 1 - depth, 0, 0
    {
      ghost var before := Here(loaded);
      match LineOf(text) {
        case Ignored =>
          BringsNothing(before, base);
          return Done;
        case HostLine(patterns) =>
          state.current := OpenBlock(patterns);
          assert views == before.views[..base] + Grown(before.views[base..], Host(patterns));
          BringsOne(Host(patterns), before, Here(loaded), base);
          return Done;
        case IncludeLine(arguments) =>
          status := LoadIncludes(files, state, arguments, depth, loaded, base);
        case SettingLine(setting) =>
          Fill(state, setting, base);
          BringsOne(Directive(setting), before, Here(loaded), base);
          return Done;
      }
    }

    method LoadIncludes(files: Files, state: ParseState, arguments: seq<string>, depth: nat, loaded: LoadedFiles, ghost base: nat)
      returns (status: Status)
      requires Filling(state, base) && depth <= MAX_INCLUDE_DEPTH
      modifies this`blocks, this`views, this`footprint, state, loaded, footprint
      ensures Filling(state, base) && fresh(footprint - old(footprint))
      ensures status == ReadArguments(files, arguments, depth + 1, old(loaded.paths)).status
      ensures Brings(ReadArguments(files, arguments, depth + 1, old(loaded.paths)),
                     old(Here(loaded)), Here(loaded), base)
      decreases MAX_INCLUDE_DEPTH - depth, 4
    {
      var deeper := depth + 1;
      ghost var start, done := Here(loaded), Nothing(loaded.paths);
      ghost var whole := ReadArguments(files, arguments, deeper, loaded.paths);
      ArgumentsBegin(files, arguments, deeper, start, base);
      for i := 0 to |arguments|
        invariant Filling(state, base) && fresh(footprint - old(footprint))
        invariant ArgumentsDone(files, arguments, deeper, i, done, whole, start, Here(loaded), base)
      {
        var targets := (files.targets)(arguments[i]);
        ghost var before, step := Here(loaded), ReadTargets(files, targets, deeper, loaded.paths);
        status := LoadTargets(files, state, targets, deeper, loaded, base);
        ArgumentsStep(files, arguments, deeper, i, done, whole, start, before, Here(loaded), base);
        if status != Done {
          return;
        }
        done := Then(done, step);
      }
      ArgumentsEnd(files, arguments, deeper, done, whole, start, Here(loaded), base);
      return Done;
    }

    /** Files one after another, skipping those that do not exist: the inner loop of LoadIncludes and,
        at depth 0, the loop of ParseConfigFiles. */
    method LoadTargets(files: Files, state: ParseState, targets: seq<string>, depth: nat, loaded: LoadedFiles, ghost base: nat)
      returns (status: Status)
      requires Filling(state, base) && depth <= MAX_INCLUDE_DEPTH + 1
      modifies this`blocks, this`views, this`footprint, state, loaded, footprint
      ensures Filling(state, base) && fresh(footprint - old(footprint))
      ensures status == ReadTargets(files, targets, depth, old(loaded.paths)).status
      ensures Brings(ReadTargets(files, targets, depth, old(loaded.paths)), old(Here(loaded)), Here(loaded), base)
      decreases MAX_INCLUDE_DEPTH + 1 - depth, 3
    {
      ghost var start, done := Here(loaded), Nothing(loaded.paths);
      ghost var whole := ReadTargets(files, targets, depth, loaded.paths);
      TargetsBegin(files, targets, depth, start, base);
      for j := 0 to |targets|
        invariant Filling(state, base) && fresh(footprint - old(footprint))
        invariant TargetsDone(files, targets, depth, j, done, whole, start, Here(loaded), base)
      {
        ghost var before, step := Here(loaded), ReadFile(files, targets[j], depth, loaded.paths);
        status := LoadFile(files, state, targets[j], depth, loaded, base);
        TargetsStep(files, targets, depth, j, done, whole, start, before, Here(loaded), base);
        if status == Failed {
          return;
        }
        done := Then(done, step.(status := Done));
      }
      TargetsEnd(files, targets, depth, done, whole, start, Here(loaded), base);
      return Done;
    }

    /** Writes one setting and says whether it was understood. */
    method ApplySetting(config: SSHConfig, s: Setting) returns (written: SSHConfig, understood: bool)
      ensures understood == Understood(s)
      ensures written == if understood then Assigned(home, config, s) else config
    {
      written := config;
      match s.keyword {
        case HostName => written := config.(hostName := s.value);
        case Port => written := config.(port := s.value);
        case User => written := config.(user := s.value);
        case IdentityFile => written := config.(identityFile := ExpandTilde(home, s.value));
        case ProxyJump => written := config.(proxyJump := s.value);
        case ProxyCommand =>
          var value := s.value;
          if Lower(value) == "none" {
            value := "";
          }
          written := config.(proxyCommand := value);
        case ServerAliveInterval =>
          var seconds := Atoi(s.value);
          if seconds.None? {
            return config, false;
          }
          written := config.(serverAliveInterval := seconds.value);
        case Other(_) => return config, false;
      }
      return written, true;
    }

    /** The entry of one alias, over all blocks as they are now. */
    method Resolve(alias: string) returns (config: SSHConfig)
      requires Holds()
      ensures config == Resolved(home, views, alias)
    {
      config := Unset(alias);
      var taken: set<Keyword> := {};
      ghost var done: seq<Setting> := [];
      for i := 0 to |blocks|
        invariant done == Applicable(views[..i], alias)
        invariant config == Configured(home, alias, done) && taken == Obtained(done)
      {
        ghost var before := done;
        ApplicableStep(views, alias, i);
        var applies := blocks[i].AppliesTo(alias);
        if applies {
          var directives := blocks[i].directives;
          for j := 0 to |directives|
            invariant done == before + directives[..j]
            invariant config == Configured(home, alias, done) && taken == Obtained(done)
          {
            TakeOneMore(before, directives, j);
            config, taken := Offer(config, taken, directives[j], alias, done);
            done := done + [directives[j]];
          }
          assert directives[..|directives|] == directives;
        }
      }
      assert views[..|blocks|] == views;
    }

    /** The body of the inner loop of Resolve: a keyword that has its value already is passed over. */
    method Offer(config: SSHConfig, taken: set<Keyword>, directive: Setting, ghost alias: string, ghost done: seq<Setting>)
      returns (config': SSHConfig, taken': set<Keyword>)
      requires config == Configured(home, alias, done) && taken == Obtained(done)
      ensures config' == Configured(home, alias, done + [directive]) && taken' == Obtained(done + [directive])
    {
      ResolverStep(home, alias, done, directive);
      config', taken' := config, taken;
      if directive.keyword in taken {
        return;
      }
      var understood;
      config', understood := ApplySetting(config, directive);
      if understood {
        taken' := taken + {directive.keyword};
      }
    }

    /** One entry per connectable alias, in the order of the files. */
    method Fold() returns (found: map<string, SSHConfig>, aliases: seq<string>)
      requires Holds()
      ensures aliases == Order(views) && found == Table(home, views)
    {
      found, aliases := map[], [];
      var claimed: set<string> := {};
      for i := 0 to |blocks|
        invariant aliases == FirstSpellings(Candidates(views[..i]), {}) && claimed == Folds(Candidates(views[..i]))
        invariant found == Entries(home, views, aliases)
      {
        CandidatesStep(views, i);
        found, aliases, claimed := FoldBlock(blocks[i].patterns, found, aliases, claimed, Candidates(views[..i]));
      }
      assert views[..|blocks|] == views;
    }

    /** The inner loop of Fold: every literal pattern of a block whose class is new gets an entry. */
    method FoldBlock(patterns: seq<string>, found: map<string, SSHConfig>, aliases: seq<string>, claimed: set<string>, ghost before: seq<string>)
      returns (found': map<string, SSHConfig>, aliases': seq<string>, claimed': set<string>)
      requires Holds()
      requires aliases == FirstSpellings(before, {}) && claimed == Folds(before)
      requires found == Entries(home, views, aliases)
      ensures aliases' == FirstSpellings(before + LiteralPatterns(patterns), {})
      ensures claimed' == Folds(before + LiteralPatterns(patterns))
      ensures found' == Entries(home, views, aliases')
    {
      found', aliases', claimed' := found, aliases, claimed;
      ghost var done := before;
      for j := 0 to |patterns|
        invariant done == before + LiteralPatterns(patterns[..j])
        invariant aliases' == FirstSpellings(done, {}) && claimed' == Folds(done)
        invariant found' == Entries(home, views, aliases')
      {
        LiteralStep(patterns, j);
        var literal := LiteralAlias(patterns[j]);
        if literal.Some? {
          var alias := literal.value;
          SpellingStep(done, alias);
          done := done + [alias];
          if Lower(alias) !in claimed' {
            claimed' := claimed' + {Lower(alias)};
            var config := Resolve(alias);
            EntriesSnoc(home, views, aliases', alias);
            found' := found'[alias := config];
            aliases' := aliases' + [alias];
          }
        }
      }
      assert patterns[..|patterns|] == patterns;
    }

    /** Rebuilds the table from all blocks. */
    method ResolveAll()
      requires Holds()
      modifies this`configs, this`order, this`settled
      ensures Tabled() && settled == views
    {
      configs, order := Fold();
      settled := views;
    }

    /** Reads every source file and rebuilds the table. Nothing that was read before is dropped. */
    method ParseConfigFiles(files: Files) returns (status: Status)
      requires Valid()
      modifies this, footprint
      ensures Valid() && fresh(footprint - old(footprint))
      ensures status == ReadAll(files).status
      ensures views == old(views) + Group(ReadAll(files).events)
      ensures past == old(past) + [files]
      ensures status == Done ==> settled == views
      ensures status != Done ==> order == old(order) && configs == old(configs)
      // The table is that of the files just read exactly when they supersede what was read before,
      // as they do when every earlier load was of the same files or of files repaired since.
      ensures status == Done ==>
                (ShowsOnly(files) <==> Superseded(home, Flatten(Loads(old(past))), Group(ReadAll(files).events)))
      ensures status == Done && (forall before | before in old(past) :: Repairs(before, files)) ==> ShowsOnly(files)
    {
      LoadsSnoc(past, files);
      status := LoadAll(files);
      if status == Done {
        ResolveAll();
        LatestAfter(home, past, files, order, configs);
      }
      past := past + [files];
    }

    /** The reading half of ParseConfigFiles, over a fresh state. */
    method LoadAll(files: Files) returns (status: Status)
      requires Holds()
      modifies this`blocks, this`views, this`footprint, footprint
      ensures Holds() && fresh(footprint - old(footprint))
      ensures status == ReadAll(files).status
      ensures views == old(views) + Group(ReadAll(files).events)
    {
      if files.sources.None? {
        return Failed;
      }
      var state := new ParseState();
      var loaded := new LoadedFiles();
      status := LoadTargets(files, state, files.sources.value, 0, loaded, |blocks|);
      assert old(views)[|old(blocks)|..] == [] && old(views)[..|old(blocks)|] == old(views);
    }

    /** The entry of a host under any spelling. */
    method GetConfig(host: string) returns (config: Option<SSHConfig>)
      requires Tabled()
      ensures LookupAnswer(home, settled, host, config)
    {
      var at := OrderIsFirstSpellings(settled);
      if host in configs {
        LookupByEntry(home, settled, host, host);
        return Some(configs[host]);
      }
      for i := 0 to |order|
        invariant forall j | 0 <= j < i :: Lower(order[j]) != Lower(host)
      {
        if Lower(order[i]) == Lower(host) {
          LookupByEntry(home, settled, host, order[i]);
          return Some(configs[order[i]]);
        }
      }
      return None;
    }

    /** The entries in the order of the files. */
    method OrderedConfigs() returns (entries: seq<SSHConfig>)
      requires Tabled()
      ensures |entries| == |order|
      ensures forall i | 0 <= i < |order| :: order[i] in configs && entries[i] == configs[order[i]]
    {
      TabledIsIndexed();
      entries := [];
      for i := 0 to |order|
        invariant |entries| == i
        invariant forall j | 0 <= j < i :: entries[j] == configs[order[j]]
      {
        entries := entries + [configs[order[i]]];
      }
    }
  }

  /** The keywords that have a value so far. */
  function Obtained(settings: seq<Setting>): set<Keyword> {
    if settings == [] then {}
    else (if Understood(settings[0]) then {settings[0].keyword} else {}) + Obtained(settings[1..])
  }

  lemma {:induction false} ObtainedIs(settings: seq<Setting>, keyword: Keyword)
    ensures keyword in Obtained(settings) <==> FirstValue(settings, keyword).Some?
  {
    if settings != [] {
      ObtainedIs(settings[1..], keyword);
    }
  }

  lemma {:induction false} ObtainedSnoc(settings: seq<Setting>, s: Setting)
    ensures Obtained(settings + [s]) == Obtained(settings) + if Understood(s) then {s.keyword} else {}
  {
    if settings == [] {
      assert Obtained([s][1..]) == {};
    } else {
      assert (settings + [s])[1..] == settings[1..] + [s];
      ObtainedSnoc(settings[1..], s);
    }
  }

  lemma TakeOneMore<T>(before: seq<T>, s: seq<T>, j: nat)
    requires j < |s|
    ensures before + s[..j] + [s[j]] == before + s[..j + 1]
  {
  }

  lemma ResolverStep(home: string -> string, alias: string, done: seq<Setting>, s: Setting)
    ensures Configured(home, alias, done + [s]) ==
            if s.keyword !in Obtained(done) && Understood(s)
            then Assigned(home, Configured(home, alias, done), s)
            else Configured(home, alias, done)
    ensures Obtained(done + [s]) == Obtained(done) + if Understood(s) then {s.keyword} else {}
  {
    ConfiguredStep(home, alias, done, s);
    ObtainedIs(done, s.keyword);
    ObtainedSnoc(done, s);
  }

  lemma ApplicableStep(views: seq<Block>, alias: string, i: nat)
    requires i < |views|
    ensures Applicable(views[..i + 1], alias) ==
            Applicable(views[..i], alias) + if Applies(views[i].patterns, alias) then views[i].directives else []
  {
    assert views[..i + 1] == views[..i] + [views[i]];
    ApplicableOfConcat(views[..i], [views[i]], alias);
    assert Applicable([views[i]][1..], alias) == [];
  }

  lemma CandidatesStep(views: seq<Block>, i: nat)
    requires i < |views|
    ensures Candidates(views[..i + 1]) == Candidates(views[..i]) + LiteralPatterns(views[i].patterns)
  {
    assert views[..i + 1] == views[..i] + [views[i]];
    CandidatesOfConcat(views[..i], [views[i]]);
    assert Candidates([views[i]][1..]) == [];
  }

  lemma {:induction false} LiteralOfConcat(p: seq<string>, q: seq<string>)
    ensures LiteralPatterns(p + q) == LiteralPatterns(p) + LiteralPatterns(q)
  {
    if p == [] {
      assert p + q == q;
    } else {
      assert (p + q)[1..] == p[1..] + q;
      LiteralOfConcat(p[1..], q);
    }
  }

  lemma LiteralStep(patterns: seq<string>, j: nat)
    requires j < |patterns|
    ensures LiteralPatterns(patterns[..j + 1]) ==
            LiteralPatterns(patterns[..j]) + if LiteralAlias(patterns[j]).Some? then [patterns[j]] else []
  {
    assert patterns[..j + 1] == patterns[..j] + [patterns[j]];
    LiteralOfConcat(patterns[..j], [patterns[j]]);
    assert LiteralPatterns([patterns[j]][1..]) == [];
  }

  lemma SpellingStep(done: seq<string>, alias: string)
    ensures FirstSpellings(done + [alias], {}) ==
            FirstSpellings(done, {}) + if Lower(alias) in Folds(done) then [] else [alias]
    ensures Folds(done + [alias]) == Folds(done) + {Lower(alias)}
  {
    SpellingsOfConcat(done, [alias], {});
    assert {} + Folds(done) == Folds(done);
    assert FirstSpellings([alias][1..], Folds(done) + {Lower(alias)}) == [];
    var next := done + [alias];
    assert next[|done|] == alias;
    assert forall i | 0 <= i < |done| :: next[i] == done[i];
  }
}
