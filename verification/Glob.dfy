/** Host patterns: the wildcard relation of ssh_config(5) and the matcher that decides it by
    going back to the last star only. */
module Glob {
  import opened Text

  /** The wildcard relation, by recursion on the pattern. */
  predicate Matches(pattern: string, alias: string)
    decreases |pattern|, |alias|
  {
    if pattern == "" then alias == ""
    else if pattern[0] == '*' then
      Matches(pattern[1..], alias) || (alias != "" && Matches(pattern, alias[1..]))
    else
      alias != "" && (pattern[0] == '?' || pattern[0] == alias[0]) && Matches(pattern[1..], alias[1..])
  }

  predicate AllStars(pattern: string) {
    forall i | 0 <= i < |pattern| :: pattern[i] == '*'
  }

  lemma AllStarsStep(pattern: string, p: nat)
    requires p <= |pattern|
    ensures AllStars(pattern[p..]) == (p == |pattern| || (pattern[p] == '*' && AllStars(pattern[p + 1..])))
  {
    if p < |pattern| {
      var rest := pattern[p..];
      assert rest[1..] == pattern[p + 1..] && rest[0] == pattern[p];
      assert forall i | 1 <= i < |rest| :: rest[i] == rest[1..][i - 1];
    }
  }

  /** The matcher's loop from one of its states; `star` is -1 until a star has been passed. */
  function Scan(pattern: string, alias: string, p: nat, a: nat, star: int, resume: nat): bool
    requires p <= |pattern| && resume <= a <= |alias| && -1 <= star < p
    decreases |alias| - resume, |pattern| - p
  {
    if a == |alias| then AllStars(pattern[p..])
    else if p < |pattern| && (pattern[p] == '?' || pattern[p] == alias[a]) then
      Scan(pattern, alias, p + 1, a + 1, star, resume)
    else if p < |pattern| && pattern[p] == '*' then Scan(pattern, alias, p + 1, a, p, a)
    else if star >= 0 then Scan(pattern, alias, star + 1, resume + 1, star, resume + 1)
    else false
  }

  /** What the matcher answers, on every pattern and every alias. */
  function PatternCovers(pattern: string, alias: string): bool {
    Scan(Lower(pattern), Lower(alias), 0, 0, -1, 0)
  }

  /** The matcher: two cursors and the last star seen. `rounds` counts the main loop. */
  method GlobMatch(pattern: string, alias: string) returns (matched: bool, ghost rounds: nat)
    ensures matched == PatternCovers(pattern, alias)
    ensures '*' !in alias ==> matched == Matches(Lower(pattern), Lower(alias))
    ensures rounds <= |alias| * (|pattern| + 1) + |pattern|
  {
    CoversIsMatch(pattern, alias);
    ghost var answer := PatternCovers(pattern, alias);
    var pat, al := Lower(pattern), Lower(alias);
    RankAtMost(0, 0, |al|, |pat|);
    var p: nat, a: nat, star: int, resume: nat := 0, 0, -1, 0;
    rounds := 0;
    ghost var width, last := |pat| + 1, Rank(|al|, |pat|, |pat| + 1);
    while a < |al|
      invariant p <= |pat| && resume <= a <= |al| && -1 <= star < p
      invariant Scan(pat, al, p, a, star, resume) == answer
      invariant rounds <= Rank(resume, p, width) <= last
      decreases |al| - resume, |pat| - p
    {
      ghost var r, q := resume, p;
      if p < |pat| && (pat[p] == '?' || pat[p] == al[a]) {
        p := p + 1;
        a := a + 1;
      } else if p < |pat| && pat[p] == '*' {
        star := p;
        resume := a;
        p := p + 1;
      } else if star >= 0 {
        resume := resume + 1;
        p := star + 1;
        a := resume;
      } else {
        return false, rounds;
      }
      RankRises(r, q, resume, p, width);
      RankAtMost(resume, p, |al|, |pat|);
      rounds := rounds + 1;
    }
    while p < |pat| && pat[p] == '*'
      invariant p <= |pat|
      invariant AllStars(pat[p..]) == answer
    {
      AllStarsStep(pat, p);
      p := p + 1;
    }
    AllStarsStep(pat, p);
    matched := p == |pat|;
  }

  /** The rank of a loop state; it strictly rises in every round. */
  ghost function Rank(resume: nat, p: nat, width: nat): nat {
    resume * width + p
  }

  lemma RankRises(r: nat, p: nat, r': nat, p': nat, width: nat)
    requires (r == r' && p < p') || (r < r' && p < width)
    ensures Rank(r, p, width) < Rank(r', p', width)
  {
    if r < r' {
      ProductRises(r, r', width);
    }
  }

  lemma {:induction false} ProductRises(r: nat, r': nat, width: nat)
    requires r < r'
    ensures r * width + width <= r' * width
    decreases r'
  {
    assert r' * width == (r' - 1) * width + width;
    if r + 1 < r' {
      ProductRises(r, r' - 1, width);
    }
  }

  lemma RankAtMost(r: nat, p: nat, n: nat, m: nat)
    requires r <= n && p <= m
    ensures Rank(r, p, m + 1) <= Rank(n, m, m + 1)
  {
    if r < n {
      RankRises(r, p, n, m, m + 1);
    }
  }

  // ------------------------------------------------- retrying the last star is enough

  /** The pattern has no star in its `n` characters from `i` on and they cover the `n` characters
      of the alias from `j` on. */
  ghost predicate Segment(pattern: string, alias: string, i: nat, j: nat, n: nat) {
    && i + n <= |pattern| && j + n <= |alias|
    && forall q | i <= q < i + n ::
         pattern[q] != '*' && (pattern[q] == '?' || pattern[q] == alias[q - i + j])
  }

  lemma {:induction false} SegmentMatches(pattern: string, alias: string, i: nat, j: nat, n: nat)
    requires Segment(pattern, alias, i, j, n)
    ensures Matches(pattern[i..], alias[j..]) == Matches(pattern[i + n..], alias[j + n..])
    decreases n
  {
    if n > 0 {
      assert pattern[i] != '*';
      assert pattern[i..][1..] == pattern[i + 1..] && alias[j..][1..] == alias[j + 1..];
      SegmentMatches(pattern, alias, i + 1, j + 1, n - 1);
    }
  }

  /** A match of a pattern without stars in its first `n` characters uses `n` characters. */
  lemma {:induction false} PlainPrefixMatches(pattern: string, alias: string, n: nat)
    requires n <= |pattern| && '*' !in pattern[..n] && Matches(pattern, alias)
    ensures n <= |alias| && Matches(pattern[n..], alias[n..])
    decreases n
  {
    if n > 0 {
      assert pattern[0] == pattern[..n][0];
      assert pattern[1..][..n - 1] == pattern[..n][1..];
      assert pattern[1..][n - 1..] == pattern[n..];
      PlainPrefixMatches(pattern[1..], alias[1..], n - 1);
      assert alias[1..][n - 1..] == alias[n..];
    }
  }

  /** A leading star also covers whatever stands in front of what it covers. */
  lemma {:induction false} StarSwallows(pattern: string, alias: string, k: nat)
    requires pattern != "" && pattern[0] == '*' && k <= |alias| && Matches(pattern, alias[k..])
    ensures Matches(pattern, alias)
    decreases k
  {
    if k > 0 {
      assert alias[1..][k - 1..] == alias[k..];
      StarSwallows(pattern, alias[1..], k - 1);
    }
  }

  /** When a second star follows the characters already covered, the first star need not move:
      whatever it could still swallow the second one can. */
  lemma {:induction false} LastStarIsEnough(pattern: string, alias: string, star: nat, resume: nat, p: nat)
    requires star < p < |pattern| && pattern[star] == pattern[p] == '*'
    requires Segment(pattern, alias, star + 1, resume, p - star - 1)
    ensures Matches(pattern[star..], alias[resume..]) == Matches(pattern[p..], alias[resume + (p - star - 1)..])
  {
    var n := p - star - 1;
    SegmentMatches(pattern, alias, star + 1, resume, n);
    assert pattern[star..][1..] == pattern[star + 1..];
    if Matches(pattern[star..], alias[resume..]) {
      PlainSegment(pattern, alias, star + 1, resume, n);
      var k := StarTaken(pattern[star..], alias[resume..]);
      assert alias[resume..][k..] == alias[resume + k..];
      assert pattern[star + 1..][n..] == pattern[p..];
      PlainPrefixMatches(pattern[star + 1..], alias[resume + k..], n);
      assert alias[resume + k..][n..] == alias[resume + n..][k..];
      StarSwallows(pattern[p..], alias[resume + n..], k);
    }
  }

  lemma PlainSegment(pattern: string, alias: string, i: nat, j: nat, n: nat)
    requires Segment(pattern, alias, i, j, n)
    ensures '*' !in pattern[i..][..n]
  {
    forall k | 0 <= k < n ensures pattern[i..][..n][k] != '*' {
      assert pattern[i..][..n][k] == pattern[i + k];
    }
  }

  /** How many characters a leading star covers in a match. */
  lemma {:induction false} StarTaken(pattern: string, alias: string) returns (k: nat)
    requires pattern != "" && pattern[0] == '*' && Matches(pattern, alias)
    ensures k <= |alias| && Matches(pattern[1..], alias[k..])
    decreases |alias|
  {
    if Matches(pattern[1..], alias) {
      k := 0;
    } else {
      k := StarTaken(pattern, alias[1..]);
      assert alias[1..][k..] == alias[k + 1..];
      k := k + 1;
    }
  }

  lemma {:induction false} MatchesEmpty(pattern: string)
    ensures Matches(pattern, "") == AllStars(pattern)
  {
    if pattern != "" {
      AllStarsStep(pattern, 0);
      assert pattern[0..] == pattern;
      MatchesEmpty(pattern[1..]);
    }
  }

  /** What is left of the alias is too short for a star to move on: everything after it
      but the trailing stars still has to be covered. */
  lemma {:induction false} TooShort(pattern: string, alias: string, star: nat, resume: nat, p: nat)
    requires star < p <= |pattern| && pattern[star] == '*'
    requires Segment(pattern, alias, star + 1, resume, p - star - 1)
    requires resume + (p - star - 1) == |alias|
    ensures Matches(pattern[star..], alias[resume..]) == AllStars(pattern[p..])
  {
    var n := p - star - 1;
    SegmentMatches(pattern, alias, star + 1, resume, n);
    MatchesEmpty(pattern[p..]);
    assert alias[resume + n..] == "";
    assert pattern[star..][1..] == pattern[star + 1..];
    if Matches(pattern[star..], alias[resume..]) {
      var k := StarTaken(pattern[star..], alias[resume..]);
      assert alias[resume..][k..] == alias[resume + k..];
      PlainSegment(pattern, alias, star + 1, resume, n);
      PlainPrefixMatches(pattern[star + 1..], alias[resume + k..], n);
      assert pattern[star + 1..][n..] == pattern[p..];
      assert alias[resume + k..][n..] == "";
    }
  }

  /** What the loop knows: everything since the last star is covered character by character. */
  ghost predicate LoopState(pattern: string, alias: string, p: nat, a: nat, star: int, resume: nat) {
    && p <= |pattern| && resume <= a <= |alias| && -1 <= star < p
    && (star >= 0 ==>
          && pattern[star] == '*' && a - resume == p - star - 1
          && Segment(pattern, alias, star + 1, resume, p - star - 1))
  }

  /** What is still to be decided: whether the pattern from the last star on (or from the cursor,
      when there is no star yet) covers what is left. */
  ghost predicate Left(pattern: string, alias: string, p: nat, a: nat, star: int, resume: nat)
    requires LoopState(pattern, alias, p, a, star, resume)
  {
    if star < 0 then Matches(pattern[p..], alias[a..]) else Matches(pattern[star..], alias[resume..])
  }

  lemma AdvanceKeepsLeft(pattern: string, alias: string, p: nat, a: nat, star: int, resume: nat)
    requires LoopState(pattern, alias, p, a, star, resume)
    requires p < |pattern| && a < |alias| && alias[a] != '*' && (pattern[p] == '?' || pattern[p] == alias[a])
    ensures LoopState(pattern, alias, p + 1, a + 1, star, resume)
    ensures Left(pattern, alias, p + 1, a + 1, star, resume) == Left(pattern, alias, p, a, star, resume)
  {
    assert pattern[p..][1..] == pattern[p + 1..] && alias[a..][1..] == alias[a + 1..];
  }

  lemma StarKeepsLeft(pattern: string, alias: string, p: nat, a: nat, star: int, resume: nat)
    requires LoopState(pattern, alias, p, a, star, resume)
    requires p < |pattern| && pattern[p] == '*'
    ensures LoopState(pattern, alias, p + 1, a, p, a)
    ensures Left(pattern, alias, p + 1, a, p, a) == Left(pattern, alias, p, a, star, resume)
  {
    if star >= 0 {
      LastStarIsEnough(pattern, alias, star, resume, p);
    }
  }

  lemma BacktrackKeepsLeft(pattern: string, alias: string, p: nat, a: nat, star: int, resume: nat)
    requires LoopState(pattern, alias, p, a, star, resume) && a < |alias| && star >= 0
    requires p < |pattern| ==> pattern[p] != '*' && pattern[p] != '?' && pattern[p] != alias[a]
    ensures LoopState(pattern, alias, star + 1, resume + 1, star, resume + 1)
    ensures Left(pattern, alias, star + 1, resume + 1, star, resume + 1) ==
            Left(pattern, alias, p, a, star, resume)
  {
    SegmentMatches(pattern, alias, star + 1, resume, p - star - 1);
    assert !Matches(pattern[p..], alias[a..]);
    assert pattern[star..][1..] == pattern[star + 1..];
    assert alias[resume..][1..] == alias[resume + 1..];
  }

  /** From every state of the loop, on an alias without a star, the loop decides what is left. */
  lemma {:induction false} ScanDecides(pattern: string, alias: string, p: nat, a: nat, star: int, resume: nat)
    requires '*' !in alias
    requires LoopState(pattern, alias, p, a, star, resume)
    ensures Scan(pattern, alias, p, a, star, resume) == Left(pattern, alias, p, a, star, resume)
    decreases |alias| - resume, |pattern| - p
  {
    if a == |alias| {
      if star < 0 {
        MatchesEmpty(pattern[p..]);
      } else {
        TooShort(pattern, alias, star, resume, p);
      }
    } else {
      assert alias[a] in alias;
      if p < |pattern| && (pattern[p] == '?' || pattern[p] == alias[a]) {
        AdvanceKeepsLeft(pattern, alias, p, a, star, resume);
        ScanDecides(pattern, alias, p + 1, a + 1, star, resume);
      } else if p < |pattern| && pattern[p] == '*' {
        StarKeepsLeft(pattern, alias, p, a, star, resume);
        ScanDecides(pattern, alias, p + 1, a, p, a);
      } else if star >= 0 {
        BacktrackKeepsLeft(pattern, alias, p, a, star, resume);
        ScanDecides(pattern, alias, star + 1, resume + 1, star, resume + 1);
      }
    }
  }

  /** On an alias without a star the matcher decides the wildcard relation, ignoring case. */
  lemma CoversIsMatch(pattern: string, alias: string)
    ensures '*' !in alias ==> PatternCovers(pattern, alias) == Matches(Lower(pattern), Lower(alias))
  {
    if '*' !in alias {
      LowerKeepsSymbol(alias, '*');
      var pat, al := Lower(pattern), Lower(alias);
      ScanDecides(pat, al, 0, 0, -1, 0);
      assert pat[0..] == pat && al[0..] == al;
    }
  }

  // ------------------------------------------------- an alias with a star

  /** While pattern and alias agree, the literal comparison goes first, also on a star. */
  lemma {:induction false} LiteralGoesFirst(pattern: string, alias: string, k: nat, n: nat)
    requires k <= n <= |pattern| && n <= |alias| && pattern[..n] == alias[..n]
    ensures Scan(pattern, alias, k, k, -1, 0) == Scan(pattern, alias, n, n, -1, 0)
    decreases n - k
  {
    if k < n {
      assert pattern[..n][k] == alias[..n][k];
      LiteralGoesFirst(pattern, alias, k + 1, n);
    }
  }

  /** A pattern that covers an alias with a star, although the matcher says it does not. */
  lemma StarInAliasMisleads(alias: string) returns (pattern: string)
    requires '*' in alias
    ensures !PatternCovers(pattern, alias) && Matches(Lower(pattern), Lower(alias))
  {
    var al := Lower(alias);
    LowerKeepsSymbol(alias, '*');
    var i := FirstStar(al);
    pattern := if i + 1 < |al| then al[..i + 1] else al[..i + 1] + "?";
    forall q | 0 <= q < |pattern| ensures LowerChar(pattern[q]) == pattern[q] {
      assert pattern[q] == if q <= i then al[q] else '?';
    }
    assert Lower(pattern) == pattern;
    assert pattern[..i + 1] == al[..i + 1];
    LiteralGoesFirst(pattern, al, 0, i + 1);
    assert pattern[0..] == pattern && al[0..] == al;
    assert Segment(pattern, al, 0, 0, i) by {
      forall q | 0 <= q < i ensures pattern[q] != '*' && pattern[q] == al[q] {
        assert al[q] == al[..i][q] && pattern[q] == pattern[..i + 1][q];
      }
    }
    SegmentMatches(pattern, al, 0, 0, i);
    if i + 1 < |al| {
      assert pattern[i..] == "*";
      StarMatchesAll(al[i..]);
    } else {
      assert pattern[i..] == "*?" && al[i..] == "*";
      StarThenAny();
      assert pattern[i + 1..] == "?";
      assert "?"[0] != '*';
    }
  }

  lemma {:induction false} StarMatchesAll(alias: string)
    ensures Matches("*", alias)
  {
    assert "*"[1..] == "";
    if alias != "" {
      StarMatchesAll(alias[1..]);
    }
  }

  lemma StarThenAny()
    ensures Matches("*?", "*")
  {
    assert "*?"[1..] == "?" && "?"[1..] == "" && "*"[1..] == "";
    assert Matches("?", "*");
  }

  lemma {:induction false} FirstStar(s: string) returns (i: nat)
    requires '*' in s
    ensures i < |s| && s[i] == '*' && '*' !in s[..i]
    decreases |s|
  {
    if s[0] == '*' {
      i := 0;
    } else {
      var j := FirstStar(s[1..]);
      i := j + 1;
      assert s[..i] == [s[0]] + s[1..][..j];
    }
  }

  /** The aliases on which the matcher decides the wildcard relation for every pattern are exactly
      those without a star. */
  lemma CorrectExactlyWithoutStar(alias: string)
    ensures '*' !in alias <==>
            forall pattern :: PatternCovers(pattern, alias) == Matches(Lower(pattern), Lower(alias))
  {
    if '*' !in alias {
      forall pattern ensures PatternCovers(pattern, alias) == Matches(Lower(pattern), Lower(alias)) {
        CoversIsMatch(pattern, alias);
      }
    } else {
      var pattern := StarInAliasMisleads(alias);
    }
  }

  /** Two spellings of one alias are covered by the same patterns. */
  lemma CoversIgnoresCase(pattern: string, alias: string, spelling: string)
    requires Lower(alias) == Lower(spelling)
    ensures PatternCovers(pattern, alias) == PatternCovers(pattern, spelling)
  {
  }

  /** The relation, spelled out: a star takes any run of characters, a question mark one, and any
      other character itself. */
  lemma MatchesIs(pattern: string, alias: string, c: char)
    ensures Matches("", alias) <==> alias == ""
    ensures Matches("*" + pattern, alias) <==> exists k | 0 <= k <= |alias| :: Matches(pattern, alias[k..])
    ensures Matches("?" + pattern, alias) <==> alias != "" && Matches(pattern, alias[1..])
    ensures c !in "*?" ==> (Matches([c] + pattern, alias) <==> alias != "" && alias[0] == c && Matches(pattern, alias[1..]))
  {
    var starred := "*" + pattern;
    assert starred[1..] == pattern && ("?" + pattern)[1..] == pattern && ([c] + pattern)[1..] == pattern;
    if Matches(starred, alias) {
      var k := StarTaken(starred, alias);
    }
    forall k | 0 <= k <= |alias| && Matches(pattern, alias[k..]) ensures Matches(starred, alias) {
      assert Matches(starred, alias[k..]);
      StarSwallows(starred, alias, k);
    }
  }
}
