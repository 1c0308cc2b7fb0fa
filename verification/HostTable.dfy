/** The table of connectable hosts: one entry per alias, whatever its case, and what loading the
    same files again does to it. */
module HostTable {
  import opened Text
  import opened Glob
  import opened HostConfig

  // ---------------------------------------------------------------- aliases

  function LiteralPatterns(patterns: seq<string>): seq<string> {
    if patterns == [] then []
    else (if LiteralAlias(patterns[0]).Some? then [patterns[0]] else []) + LiteralPatterns(patterns[1..])
  }

  /** Every alias named literally, in the order of the files. */
  function Candidates(blocks: seq<Block>): seq<string> {
    if blocks == [] then [] else LiteralPatterns(blocks[0].patterns) + Candidates(blocks[1..])
  }

  /** The candidates that are the first spelling of their class, given the classes already claimed. */
  function FirstSpellings(candidates: seq<string>, claimed: set<string>): seq<string> {
    if candidates == [] then []
    else if Lower(candidates[0]) in claimed then FirstSpellings(candidates[1..], claimed)
    else [candidates[0]] + FirstSpellings(candidates[1..], claimed + {Lower(candidates[0])})
  }

  /** The aliases the table offers, in order. */
  function Order(blocks: seq<Block>): seq<string> {
    FirstSpellings(Candidates(blocks), {})
  }

  function Folds(aliases: seq<string>): set<string> {
    set i | 0 <= i < |aliases| :: Lower(aliases[i])
  }

  predicate FoldDistinct(aliases: seq<string>) {
    forall i, j | 0 <= i < j < |aliases| :: Lower(aliases[i]) != Lower(aliases[j])
  }

  /** The candidate at position `k` opens its class. */
  predicate OpensClass(candidates: seq<string>, claimed: set<string>, k: nat)
    requires k < |candidates|
  {
    Lower(candidates[k]) !in claimed && forall j | 0 <= j < k :: Lower(candidates[j]) != Lower(candidates[k])
  }

  /** The positions of the candidates that open a class, in increasing order. */
  function Openers(candidates: seq<string>, claimed: set<string>): (at: seq<nat>)
    ensures forall i | 0 <= i < |at| :: at[i] < |candidates|
  {
    if candidates == [] then []
    else
      var k := |candidates| - 1;
      var at := Openers(candidates[..k], claimed);
      if OpensClass(candidates, claimed, k) then at + [k] else at
  }

  lemma {:induction false} OpenersAre(candidates: seq<string>, claimed: set<string>)
    ensures var at := Openers(candidates, claimed);
            && (forall i, j | 0 <= i < j < |at| :: at[i] < at[j])
            && (forall k: nat | k < |candidates| :: k in at <==> OpensClass(candidates, claimed, k))
  {
    if candidates != [] {
      var k := |candidates| - 1;
      OpenersAre(candidates[..k], claimed);
      var rest, at := Openers(candidates[..k], claimed), Openers(candidates, claimed);
      forall i: nat | i < |candidates| ensures i in at <==> OpensClass(candidates, claimed, i) {
        if i < k {
          assert OpensClass(candidates[..k], claimed, i) <==> OpensClass(candidates, claimed, i);
          assert i in at <==> i in rest;
        } else {
          assert k !in rest;
        }
      }
    }
  }

  lemma {:induction false} SpellingsOfConcat(c: seq<string>, d: seq<string>, claimed: set<string>)
    ensures FirstSpellings(c + d, claimed) == FirstSpellings(c, claimed) + FirstSpellings(d, claimed + Folds(c))
  {
    if c == [] {
      assert c + d == d && claimed + Folds(c) == claimed;
    } else {
      assert (c + d)[1..] == c[1..] + d;
      var claimed' := claimed + {Lower(c[0])};
      FoldsOfCons(c);
      if Lower(c[0]) in claimed {
        SpellingsOfConcat(c[1..], d, claimed);
        assert claimed + Folds(c) == claimed + Folds(c[1..]);
      } else {
        SpellingsOfConcat(c[1..], d, claimed');
        assert claimed + Folds(c) == claimed' + Folds(c[1..]);
      }
    }
  }

  lemma FoldsOfCons(c: seq<string>)
    requires c != []
    ensures Folds(c) == {Lower(c[0])} + Folds(c[1..])
  {
    forall x | x in Folds(c) ensures x in {Lower(c[0])} + Folds(c[1..]) {
      var i :| 0 <= i < |c| && x == Lower(c[i]);
      if i > 0 {
        assert c[1..][i - 1] == c[i];
      }
    }
  }

  /** The spellings kept are exactly the candidates that open a class, in order of appearance. */
  lemma {:induction false} SpellingsAreOpeners(candidates: seq<string>, claimed: set<string>)
    ensures var at := Openers(candidates, claimed);
            FirstSpellings(candidates, claimed) == seq(|at|, i requires 0 <= i < |at| => candidates[at[i]])
  {
    if candidates != [] {
      var k := |candidates| - 1;
      var c, last := candidates[..k], candidates[k];
      SpellingsAreOpeners(c, claimed);
      assert candidates == c + [last];
      SpellingsOfConcat(c, [last], claimed);
      assert FirstSpellings([last][1..], claimed + Folds(c) + {Lower(last)}) == [];
      assert OpensClass(candidates, claimed, k) <==> Lower(last) !in claimed + Folds(c);
    }
  }

  /** The order holds one spelling per class of literal patterns: the first one, and no two of them
      are spellings of one alias. */
  lemma OrderIsFirstSpellings(blocks: seq<Block>) returns (at: seq<nat>)
    ensures |at| == |Order(blocks)|
    ensures forall i, j | 0 <= i < j < |at| :: at[i] < at[j]
    ensures forall i | 0 <= i < |at| :: at[i] < |Candidates(blocks)| && Candidates(blocks)[at[i]] == Order(blocks)[i]
    ensures forall k: nat | k < |Candidates(blocks)| :: k in at <==> OpensClass(Candidates(blocks), {}, k)
    ensures FoldDistinct(Order(blocks))
    ensures Folds(Order(blocks)) == Folds(Candidates(blocks))
  {
    var candidates := Candidates(blocks);
    at := Openers(candidates, {});
    OpenersAre(candidates, {});
    SpellingsAreOpeners(candidates, {});
    forall i, j | 0 <= i < j < |at| ensures Lower(Order(blocks)[i]) != Lower(Order(blocks)[j]) {
      assert at[j] in at && OpensClass(candidates, {}, at[j]);
    }
    forall x | x in Folds(candidates) ensures x in Folds(Order(blocks)) {
      var k := FirstOfClass(candidates, x);
      assert k in at;
      var i :| 0 <= i < |at| && at[i] == k;
      assert Lower(Order(blocks)[i]) == x;
    }
    forall x | x in Folds(Order(blocks)) ensures x in Folds(candidates) {
      var i :| 0 <= i < |at| && x == Lower(Order(blocks)[i]);
      assert x == Lower(candidates[at[i]]);
    }
  }

  lemma {:induction false} FirstOfClass(candidates: seq<string>, fold: string) returns (k: nat)
    requires fold in Folds(candidates)
    ensures k < |candidates| && Lower(candidates[k]) == fold && OpensClass(candidates, {}, k)
  {
    var n := |candidates| - 1;
    var i :| 0 <= i < |candidates| && Lower(candidates[i]) == fold;
    if exists j :: 0 <= j < n && Lower(candidates[j]) == fold {
      var j :| 0 <= j < n && Lower(candidates[j]) == fold;
      assert Lower(candidates[..n][j]) == fold;
      k := FirstOfClass(candidates[..n], fold);
      assert forall j | 0 <= j < k :: candidates[..n][j] == candidates[j];
    } else {
      k := n;
    }
  }

  /** The aliases offered are the patterns that are not empty, have no exclamation mark in front and
      no wildcard inside. */
  lemma {:induction false} CandidatesAreLiteral(blocks: seq<Block>)
    ensures forall a :: a in Candidates(blocks) <==>
              && a != "" && !("!" <= a) && '*' !in a && '?' !in a
              && exists i | 0 <= i < |blocks| :: a in blocks[i].patterns
  {
    if blocks != [] {
      LiteralPatternsAreLiteral(blocks[0].patterns);
      CandidatesAreLiteral(blocks[1..]);
      forall a
        ensures (exists i | 0 <= i < |blocks| :: a in blocks[i].patterns) <==>
                a in blocks[0].patterns || exists i | 0 <= i < |blocks| - 1 :: a in blocks[1..][i].patterns
      {
        assert forall i | 0 <= i < |blocks| - 1 :: blocks[1..][i] == blocks[i + 1];
      }
    }
  }

  lemma {:induction false} LiteralPatternsAreLiteral(patterns: seq<string>)
    ensures forall a :: a in LiteralPatterns(patterns) <==>
              a in patterns && a != "" && !("!" <= a) && '*' !in a && '?' !in a
  {
    if patterns != [] {
      LiteralIs(patterns[0]);
      LiteralPatternsAreLiteral(patterns[1..]);
    }
  }

  // ---------------------------------------------------------------- the table

  function Entries(home: string -> string, blocks: seq<Block>, aliases: seq<string>): map<string, SSHConfig> {
    map a | a in aliases :: Resolved(home, blocks, a)
  }

  function Table(home: string -> string, blocks: seq<Block>): map<string, SSHConfig> {
    Entries(home, blocks, Order(blocks))
  }

  lemma EntriesSnoc(home: string -> string, blocks: seq<Block>, aliases: seq<string>, alias: string)
    ensures Entries(home, blocks, aliases + [alias]) ==
            Entries(home, blocks, aliases)[alias := Resolved(home, blocks, alias)]
  {
  }

  /** Two spellings of one alias resolve alike but for the alias itself, so that dropping the later
      spelling loses nothing. */
  lemma {:induction false} ApplicableIgnoresCase(blocks: seq<Block>, alias: string, spelling: string)
    requires Lower(alias) == Lower(spelling)
    ensures Applicable(blocks, alias) == Applicable(blocks, spelling)
  {
    if blocks != [] {
      forall pattern ensures PatternCovers(pattern, alias) == PatternCovers(pattern, spelling) {
        CoversIgnoresCase(pattern, alias, spelling);
      }
      ApplicableIgnoresCase(blocks[1..], alias, spelling);
    }
  }

  /** What a lookup by any spelling must answer. */
  predicate LookupAnswer(home: string -> string, blocks: seq<Block>, host: string, answer: Option<SSHConfig>) {
    if Lower(host) !in Folds(Candidates(blocks)) then answer == None
    else
      && answer.Some?
      && answer.value.host in Order(blocks)
      && Lower(answer.value.host) == Lower(host)
      && answer.value == Resolved(home, blocks, host).(host := answer.value.host)
  }

  lemma LookupByEntry(home: string -> string, blocks: seq<Block>, host: string, alias: string)
    requires alias in Order(blocks) && Lower(alias) == Lower(host)
    ensures LookupAnswer(home, blocks, host, Some(Resolved(home, blocks, alias)))
  {
    var at := OrderIsFirstSpellings(blocks);
    var i :| 0 <= i < |Order(blocks)| && Order(blocks)[i] == alias;
    assert Lower(Order(blocks)[i]) in Folds(Order(blocks));
    ApplicableIgnoresCase(blocks, alias, host);
  }

  /** The answer is determined: the class of a host has one entry. */
  lemma LookupIsUnique(home: string -> string, blocks: seq<Block>, host: string, a: Option<SSHConfig>, b: Option<SSHConfig>)
    requires LookupAnswer(home, blocks, host, a) && LookupAnswer(home, blocks, host, b)
    ensures a == b
  {
    if a.Some? && b.Some? {
      var at := OrderIsFirstSpellings(blocks);
      var i :| 0 <= i < |Order(blocks)| && Order(blocks)[i] == a.value.host;
      var j :| 0 <= j < |Order(blocks)| && Order(blocks)[j] == b.value.host;
      assert i == j;
    }
  }

  /** A host that the lookup knows has an entry under its own name exactly when that is the spelling
      kept in the order. */
  lemma KnownByOwnName(home: string -> string, blocks: seq<Block>, host: string, answer: Option<SSHConfig>)
    requires LookupAnswer(home, blocks, host, answer)
    ensures host in Table(home, blocks) <==> answer.Some? && answer.value.host == host
    ensures host in Table(home, blocks) <==> host in Order(blocks)
  {
    if host in Order(blocks) {
      LookupByEntry(home, blocks, host, host);
      LookupIsUnique(home, blocks, host, answer, Some(Resolved(home, blocks, host)));
    }
  }

  // ---------------------------------------------------------------- loading again

  /** `cut` is what is left of `blocks` when a load stops early: its first blocks, the last of them
      perhaps without its last directives. */
  predicate CutFrom(cut: seq<Block>, blocks: seq<Block>) {
    && |cut| <= |blocks|
    && forall i | 0 <= i < |cut| ::
         && cut[i].patterns == blocks[i].patterns
         && cut[i].directives <= blocks[i].directives
         && (i + 1 < |cut| ==> cut[i] == blocks[i])
  }

  function Flatten(loads: seq<seq<Block>>): seq<Block> {
    if loads == [] then [] else loads[0] + Flatten(loads[1..])
  }

  lemma {:induction false} FlattenSnoc(loads: seq<seq<Block>>, last: seq<Block>)
    ensures Flatten(loads + [last]) == Flatten(loads) + last
  {
    if loads == [] {
      assert (loads + [last])[1..] == [];
    } else {
      assert (loads + [last])[1..] == loads[1..] + [last];
      FlattenSnoc(loads[1..], last);
    }
  }

  lemma RestOfCut(cut: seq<Block>, blocks: seq<Block>)
    requires CutFrom(cut, blocks) && cut != []
    ensures CutFrom(cut[1..], blocks[1..])
    ensures cut[0].patterns == blocks[0].patterns && cut[0].directives <= blocks[0].directives
    ensures |cut| > 1 ==> cut[0] == blocks[0]
  {
    assert forall i | 0 <= i < |cut| - 1 :: cut[1..][i] == cut[i + 1] && blocks[1..][i] == blocks[i + 1];
  }

  lemma PrefixOfParts<T>(a: seq<T>, x: seq<T>, b: seq<T>, y: seq<T>)
    requires (a == b && x <= y) || (a <= b && x == [])
    ensures a + x <= b + y
  {
  }

  lemma {:induction false} ApplicableOfCut(cut: seq<Block>, blocks: seq<Block>, alias: string)
    requires CutFrom(cut, blocks)
    ensures Applicable(cut, alias) <= Applicable(blocks, alias)
  {
    if cut != [] {
      var applies := Applies(cut[0].patterns, alias);
      var x, y := Applicable(cut[1..], alias), Applicable(blocks[1..], alias);
      RestOfCut(cut, blocks);
      ApplicableOfCut(cut[1..], blocks[1..], alias);
      if |cut| == 1 {
        assert x == [];
      }
      PrefixOfParts(if applies then cut[0].directives else [], x, if applies then blocks[0].directives else [], y);
    }
  }

  lemma {:induction false} CandidatesOfCut(cut: seq<Block>, blocks: seq<Block>)
    requires CutFrom(cut, blocks)
    ensures Candidates(cut) <= Candidates(blocks)
  {
    if cut != [] {
      RestOfCut(cut, blocks);
      CandidatesOfCut(cut[1..], blocks[1..]);
    }
  }

  lemma {:induction false} CandidatesOfConcat(b: seq<Block>, c: seq<Block>)
    ensures Candidates(b + c) == Candidates(b) + Candidates(c)
  {
    if b == [] {
      assert b + c == c;
    } else {
      assert (b + c)[1..] == b[1..] + c;
      CandidatesOfConcat(b[1..], c);
    }
  }

  lemma {:induction false} ValuesAbsorbed(loads: seq<seq<Block>>, blocks: seq<Block>, alias: string, keyword: Keyword)
    requires forall cut | cut in loads :: CutFrom(cut, blocks)
    ensures FirstValue(Applicable(Flatten(loads) + blocks, alias), keyword) ==
            FirstValue(Applicable(blocks, alias), keyword)
  {
    if loads == [] {
      assert Flatten(loads) + blocks == blocks;
    } else {
      var cut, rest := loads[0], Flatten(loads[1..]) + blocks;
      ValuesAbsorbed(loads[1..], blocks, alias, keyword);
      assert Flatten(loads) + blocks == cut + rest;
      ApplicableOfConcat(cut, rest, alias);
      FirstValueOfConcat(Applicable(cut, alias), Applicable(rest, alias), keyword);
      ApplicableOfCut(cut, blocks, alias);
      var own, all := Applicable(cut, alias), Applicable(blocks, alias);
      assert all == own + all[|own|..];
      FirstValueOfConcat(own, all[|own|..], keyword);
    }
  }

  /** A prefix in front of the whole contributes what the whole would have contributed itself. */
  lemma PrefixTwice(prefix: seq<string>, all: seq<string>, claimed: set<string>)
    requires prefix <= all
    ensures FirstSpellings(prefix, claimed) + FirstSpellings(all, claimed + Folds(prefix)) == FirstSpellings(all, claimed)
  {
    var tail, after := all[|prefix|..], claimed + Folds(prefix);
    assert all == prefix + tail;
    SpellingsOfConcat(prefix, tail, after);
    NothingNew(prefix, after);
    assert after + Folds(prefix) == after;
    SpellingsOfConcat(prefix, tail, claimed);
  }

  lemma {:induction false} SpellingsAbsorbed(loads: seq<seq<Block>>, blocks: seq<Block>, claimed: set<string>)
    requires forall cut | cut in loads :: CutFrom(cut, blocks)
    ensures FirstSpellings(Candidates(Flatten(loads) + blocks), claimed) == FirstSpellings(Candidates(blocks), claimed)
  {
    if loads == [] {
      assert Flatten(loads) + blocks == blocks;
    } else {
      var cut, rest := loads[0], Flatten(loads[1..]) + blocks;
      assert Flatten(loads) + blocks == cut + rest;
      var own := Candidates(cut);
      CandidatesOfConcat(cut, rest);
      CandidatesOfCut(cut, blocks);
      SpellingsOfConcat(own, Candidates(rest), claimed);
      SpellingsAbsorbed(loads[1..], blocks, claimed + Folds(own));
      PrefixTwice(own, Candidates(blocks), claimed);
    }
  }

  lemma {:induction false} NothingNew(candidates: seq<string>, claimed: set<string>)
    requires Folds(candidates) <= claimed
    ensures FirstSpellings(candidates, claimed) == []
  {
    if candidates != [] {
      FoldsOfCons(candidates);
      NothingNew(candidates[1..], claimed);
    }
  }

  lemma ResolvedAbsorbed(home: string -> string, loads: seq<seq<Block>>, blocks: seq<Block>, alias: string)
    requires forall cut | cut in loads :: CutFrom(cut, blocks)
    ensures Resolved(home, Flatten(loads) + blocks, alias) == Resolved(home, blocks, alias)
  {
    var s, t := Applicable(Flatten(loads) + blocks, alias), Applicable(blocks, alias);
    forall keyword: Keyword ensures FirstValue(s, keyword) == FirstValue(t, keyword) {
      ValuesAbsorbed(loads, blocks, alias, keyword);
    }
    SameValuesSameConfig(home, alias, s, t);
  }

  lemma SameTable(home: string -> string, b: seq<Block>, c: seq<Block>)
    requires Order(b) == Order(c)
    requires forall alias | alias in Order(c) :: Resolved(home, b, alias) == Resolved(home, c, alias)
    ensures Table(home, b) == Table(home, c)
  {
  }

  /** Blocks left behind by earlier loads of the same files, finished or cut short, change neither
      the order nor any entry. */
  lemma EarlierLoadsAbsorbed(home: string -> string, loads: seq<seq<Block>>, blocks: seq<Block>)
    requires forall cut | cut in loads :: CutFrom(cut, blocks)
    ensures Order(Flatten(loads) + blocks) == Order(blocks)
    ensures Table(home, Flatten(loads) + blocks) == Table(home, blocks)
  {
    var all := Flatten(loads) + blocks;
    SpellingsAbsorbed(loads, blocks, {});
    forall alias | alias in Order(blocks)
      ensures Resolved(home, all, alias) == Resolved(home, blocks, alias)
    {
      ResolvedAbsorbed(home, loads, blocks, alias);
    }
    SameTable(home, all, blocks);
  }
}
