/** When a load can open a path more than once. */
module Reopening {
  import opened Text
  import opened HostConfig
  import opened Includes

  predicate OpensTwice(files: Files, path: string) {
    var visits := ReadAll(files).visits;
    exists i, j | 0 <= i < j < |visits| :: visits[i].path == visits[j].path == path
  }

  /** The starting files are distinct, as the main file and the entries of one directory are. */
  predicate Listed(files: Files) {
    files.sources.Some? ==>
      forall i, j | 0 <= i < j < |files.sources.value| :: files.sources.value[i] != files.sources.value[j]
  }

  // ---------------------------------------------------------------- a file that includes itself

  function SelfIncluding(canonical: string -> Option<string>, path: string): Files {
    Files(p => if p == path then Readable(["Include x"], false) else Missing, canonical, argument => [path], Some([path]))
  }

  /** The path once at every depth from here down to the limit. */
  function Downward(path: string, depth: nat): seq<Visit>
    decreases MAX_INCLUDE_DEPTH + 1 - depth
  {
    if depth > MAX_INCLUDE_DEPTH then [] else [Visit(path, depth)] + Downward(path, depth + 1)
  }

  lemma IncludeLineReads()
    ensures LineOf("Include x") == IncludeLine(["x"])
  {
    TwoWords("Include", "x");
    assert Lower("Include") == "include";
    assert "Include" + " " + "x" == "Include x";
  }

  /** The file has one line, an Include of itself, and no canonical path. */
  ghost predicate Loops(files: Files, path: string, text: string, argument: string) {
    && (files.canonical)(path).None? && (files.open)(path) == Readable([text], false)
    && LineOf(text) == IncludeLine([argument]) && (files.targets)(argument) == [path]
  }

  /** Nothing is remembered of the file, and only the depth ends the loop. */
  lemma {:induction false} LoopRunsDown(files: Files, path: string, text: string, argument: string, depth: nat, loaded: set<string>)
    requires Loops(files, path, text, argument) && depth <= MAX_INCLUDE_DEPTH + 1
    ensures ReadFile(files, path, depth, loaded) == Load([], loaded, Downward(path, depth), Done)
    decreases MAX_INCLUDE_DEPTH + 1 - depth
  {
    if depth <= MAX_INCLUDE_DEPTH {
      LoopRunsDown(files, path, text, argument, depth + 1, loaded);
      var deeper := Load([], loaded, Downward(path, depth + 1), Done);
      LineRunsDown(files, text, argument, path, depth, loaded, deeper);
    }
  }

  lemma LineRunsDown(files: Files, text: string, argument: string, path: string, depth: nat, loaded: set<string>, deeper: Load)
    requires depth <= MAX_INCLUDE_DEPTH && LineOf(text) == IncludeLine([argument])
    requires (files.targets)(argument) == [path] && ReadFile(files, path, depth + 1, loaded) == deeper
    requires deeper.status == Done && deeper.loaded == loaded
    ensures ReadLines(files, [text], depth, loaded) == deeper
  {
    assert [path][1..] == [] && [argument][1..] == [] && [text][1..] == [];
    assert Then(deeper, Nothing(loaded)) == deeper;
    assert ReadTargets(files, [path], depth + 1, loaded) == deeper by {
      assert ReadTargets(files, [], depth + 1, loaded) == Nothing(loaded);
    }
    assert ReadArguments(files, [argument], depth + 1, loaded) == deeper by {
      assert ReadArguments(files, [], depth + 1, loaded) == Nothing(loaded);
    }
    assert ReadLine(files, text, depth, loaded) == deeper;
    assert ReadLines(files, [], depth, loaded) == Nothing(loaded);
  }

  /** A file that includes itself and has no canonical path is opened nine times. */
  lemma LoopingVisits(files: Files, path: string, text: string, argument: string)
    requires Loops(files, path, text, argument) && files.sources == Some([path])
    ensures ReadAll(files).visits == seq(MAX_INCLUDE_DEPTH + 1, depth requires depth >= 0 => Visit(path, depth))
    ensures OpensTwice(files, path)
  {
    LoopRunsDown(files, path, text, argument, 0, {});
    var first := ReadFile(files, path, 0, {});
    assert [path][1..] == [];
    assert ReadTargets(files, [], 0, {}) == Nothing({});
    assert first.visits + [] == first.visits;
    DownwardIs(path, 0);
    var visits := ReadAll(files).visits;
    assert visits[0].path == visits[1].path == path;
  }

  lemma SelfIncludeLoops(canonical: string -> Option<string>, path: string)
    requires canonical(path).None?
    ensures var files := SelfIncluding(canonical, path);
            && ReadAll(files).visits == seq(MAX_INCLUDE_DEPTH + 1, depth requires depth >= 0 => Visit(path, depth))
            && OpensTwice(files, path)
  {
    IncludeLineReads();
    LoopingVisits(SelfIncluding(canonical, path), path, "Include x", "x");
  }

  lemma {:induction false} DownwardIs(path: string, depth: nat)
    requires depth <= MAX_INCLUDE_DEPTH + 1
    ensures Downward(path, depth) == seq(MAX_INCLUDE_DEPTH + 1 - depth, i requires i >= 0 => Visit(path, depth + i))
    decreases MAX_INCLUDE_DEPTH + 1 - depth
  {
    if depth <= MAX_INCLUDE_DEPTH {
      DownwardIs(path, depth + 1);
    }
  }

  // ---------------------------------------------------------------- exactly when

  /** Some contents of the files make a load open the path twice. */
  ghost predicate CanOpenTwice(canonical: string -> Option<string>, path: string) {
    exists files: Files | files.canonical == canonical && Listed(files) :: OpensTwice(files, path)
  }

  /** A path can be opened twice in one load exactly when it has no canonical form. */
  lemma OpenedTwiceExactly(canonical: string -> Option<string>, path: string)
    ensures CanOpenTwice(canonical, path) <==> canonical(path).None?
  {
    if canonical(path).None? {
      SelfIncludeLoops(canonical, path);
      assert SelfIncluding(canonical, path).canonical == canonical && Listed(SelfIncluding(canonical, path));
    }
    forall files: Files | files.canonical == canonical && OpensTwice(files, path) ensures canonical(path).None? {
      LoadOpensOnce(files);
    }
  }

  /** Whatever the files say, no path is opened twice, exactly when every path has a canonical form. */
  lemma NoneTwiceExactly(canonical: string -> Option<string>)
    ensures (forall path :: canonical(path).Some?) <==>
            forall files: Files, path | files.canonical == canonical && Listed(files) :: !OpensTwice(files, path)
  {
    forall path ensures CanOpenTwice(canonical, path) <==> canonical(path).None? {
      OpenedTwiceExactly(canonical, path);
    }
    if forall files: Files, path | files.canonical == canonical && Listed(files) :: !OpensTwice(files, path) {
      forall path ensures canonical(path).Some? {
        assert !CanOpenTwice(canonical, path);
      }
    }
    if forall path :: canonical(path).Some? {
      forall files: Files, path | files.canonical == canonical && Listed(files) ensures !OpensTwice(files, path) {
        assert canonical(path).Some? && !CanOpenTwice(canonical, path);
      }
    }
  }
}
