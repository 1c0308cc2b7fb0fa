/** Strings as the Go standard library treats them, restricted to ASCII: folding, fields,
    decimal integers, substrings and lines. A string also stands for a sequence of bytes. */
module Text {

  datatype Option<+T> = None | Some(value: T)

  const MAX_INT64 := 0x7FFF_FFFF_FFFF_FFFF
  const MIN_INT64 := -0x8000_0000_0000_0000

  /** Two's complement wrap-around of a 64-bit signed integer. */
  function Wrap64(n: int): (r: int)
    ensures MIN_INT64 <= r <= MAX_INT64
    ensures r == n <==> MIN_INT64 <= n <= MAX_INT64
  {
    (n - MIN_INT64) % 0x1_0000_0000_0000_0000 + MIN_INT64
  }

  // ---------------------------------------------------------------- case folding

  function LowerChar(c: char): char {
    if 'A' <= c <= 'Z' then (c as int + 32) as char else c
  }

  function Lower(s: string): (r: string)
    ensures |r| == |s|
    ensures forall i | 0 <= i < |s| :: r[i] == LowerChar(s[i])
  {
    seq(|s|, i requires 0 <= i < |s| => LowerChar(s[i]))
  }

  /** The capitals become small letters and nothing else changes. */
  lemma LowerIs(c: char)
    ensures Lower("ABCDEFGHIJKLMNOPQRSTUVWXYZ") == "abcdefghijklmnopqrstuvwxyz"
    ensures c !in "ABCDEFGHIJKLMNOPQRSTUVWXYZ" ==> LowerChar(c) == c
  {
    var capitals := "ABCDEFGHIJKLMNOPQRSTUVWXYZ";
    assert forall i | 0 <= i < 26 :: capitals[i] == (i + 'A' as int) as char;
    if 'A' <= c <= 'Z' {
      assert capitals[c as int - 'A' as int] == c;
    }
  }

  lemma LowerKeepsSymbol(s: string, c: char)
    requires !('A' <= c <= 'Z') && !('a' <= c <= 'z')
    ensures c in Lower(s) <==> c in s
  {
    if c in s {
      var i :| 0 <= i < |s| && s[i] == c;
      assert Lower(s)[i] == c;
    }
    if c in Lower(s) {
      var i :| 0 <= i < |s| && Lower(s)[i] == c;
      assert s[i] == c;
    }
  }

  // ---------------------------------------------------------------- fields

  predicate IsSpace(c: char) {
    c == ' ' || '\t' <= c <= '\r'
  }

  /** A token that strings.Fields can return. */
  predicate IsWord(w: string) {
    w != "" && forall c | c in w :: !IsSpace(c)
  }

  function WordLength(s: string): (n: nat)
    ensures n <= |s|
    ensures forall i | 0 <= i < n :: !IsSpace(s[i])
    ensures n < |s| ==> IsSpace(s[n])
  {
    if s == "" || IsSpace(s[0]) then 0 else 1 + WordLength(s[1..])
  }

  /** strings.Fields: the maximal runs of non-space characters. */
  function Fields(s: string): (words: seq<string>)
    ensures forall w | w in words :: IsWord(w)
    decreases |s|
  {
    if s == "" then []
    else if IsSpace(s[0]) then Fields(s[1..])
    else
      var n := WordLength(s);
      assert n > 0;
      [s[..n]] + Fields(s[n..])
  }

  lemma SpacesAre(c: char)
    ensures IsSpace(c) <==> c in [' ', '\t', '\n', 11 as char, 12 as char, '\r']
  {
  }

  lemma {:induction false} FieldsOfMore(s: string, more: string)
    requires more != "" && IsSpace(more[0])
    ensures Fields(s + more) == Fields(s) + Fields(more)
    decreases |s|
  {
    if s == "" {
      assert s + more == more;
    } else if IsSpace(s[0]) {
      assert (s + more)[1..] == s[1..] + more;
      FieldsOfMore(s[1..], more);
    } else {
      var n := WordLength(s);
      FirstWordOff(s, more, n);
      FieldsOfMore(s[n..], more);
    }
  }

  /** White space parts words. */
  lemma FieldsOfConcat(s: string, c: char, t: string)
    requires IsSpace(c)
    ensures Fields(s + [c] + t) == Fields(s) + Fields(t)
  {
    FieldsOfMore(s, [c] + t);
    assert s + [c] + t == s + ([c] + t) && ([c] + t)[1..] == t;
  }

  /** The first word stays the first when more follows after white space. */
  lemma FirstWordOff(s: string, more: string, n: nat)
    requires s != "" && !IsSpace(s[0]) && n == WordLength(s) && more != "" && IsSpace(more[0])
    ensures 0 < n && Fields(s) == [s[..n]] + Fields(s[n..]) && Fields(s + more) == [s[..n]] + Fields(s[n..] + more)
  {
    var word, rest := s[..n], s[n..];
    forall c | c in word ensures !IsSpace(c) {
      var i :| 0 <= i < n && word[i] == c;
      assert s[i] == c;
    }
    Parted(s, more, n);
    FieldsOfWord(word, rest);
    FieldsOfWord(word, rest + more);
  }

  lemma Parted(s: string, more: string, n: nat)
    requires n <= |s| && more != ""
    ensures s == s[..n] + s[n..] && s + more == s[..n] + (s[n..] + more)
    ensures (s[n..] + more)[0] == if n < |s| then s[n] else more[0]
  {
  }

  /** A string without white space is one word, or none. */
  lemma FieldsOfOne(w: string)
    requires forall c | c in w :: !IsSpace(c)
    ensures Fields(w) == if w == "" then [] else [w]
  {
    if w != "" {
      FieldsOfWord(w, "");
      assert w + "" == w;
    }
  }

  /** strings.Join with a single space. */
  function Join(words: seq<string>): string {
    if words == [] then ""
    else if |words| == 1 then words[0]
    else words[0] + " " + Join(words[1..])
  }

  /** The first word of `w` followed by `rest` is exactly `w` when a space or the end follows. */
  lemma {:induction false} WordLengthOf(w: string, rest: string)
    requires forall c | c in w :: !IsSpace(c)
    requires rest == "" || IsSpace(rest[0])
    ensures WordLength(w + rest) == |w|
  {
    if w == "" {
      assert w + rest == rest;
    } else {
      assert (w + rest)[1..] == w[1..] + rest;
      WordLengthOf(w[1..], rest);
    }
  }

  lemma FieldsOfWord(w: string, rest: string)
    requires IsWord(w)
    requires rest == "" || IsSpace(rest[0])
    ensures Fields(w + rest) == [w] + Fields(rest)
  {
    WordLengthOf(w, rest);
    assert (w + rest)[0] == w[0] && w[0] in w;
    assert (w + rest)[..|w|] == w;
    assert (w + rest)[|w|..] == rest;
  }

  /** Joining words and splitting them again gives the words back. */
  lemma {:induction false} FieldsOfJoin(words: seq<string>)
    requires forall w | w in words :: IsWord(w)
    ensures Fields(Join(words)) == words
  {
    if words == [] {
    } else if |words| == 1 {
      FieldsOfWord(words[0], "");
      assert words[0] + "" == words[0];
    } else {
      var rest := " " + Join(words[1..]);
      assert words[0] + " " + Join(words[1..]) == words[0] + rest;
      FieldsOfWord(words[0], rest);
      assert rest[1..] == Join(words[1..]);
      FieldsOfJoin(words[1..]);
    }
  }

  // ---------------------------------------------------------------- decimal integers

  predicate IsDigit(c: char) {
    '0' <= c <= '9'
  }

  function Digit(n: nat): (c: char)
    requires n < 10
    ensures IsDigit(c)
  {
    ('0' as int + n) as char
  }

  /** The value of a run of digits, or None when another character occurs. */
  function DigitsValue(s: string): Option<nat> {
    if s == "" then Some(0)
    else
      var last := s[|s| - 1];
      match DigitsValue(s[..|s| - 1])
      case None => None
      case Some(n) => if IsDigit(last) then Some(10 * n + (last as int - '0' as int)) else None
  }

  /** strconv.Atoi and ParseInt in base 10 on 64 bits: an optional sign, at least one digit,
      and a value that fits; anything else is an error. */
  function Atoi(s: string): (r: Option<int>)
    ensures r.Some? ==> MIN_INT64 <= r.value <= MAX_INT64
  {
    var negative := s != "" && s[0] == '-';
    var digits := if s != "" && (s[0] == '-' || s[0] == '+') then s[1..] else s;
    if digits == "" then None
    else match DigitsValue(digits)
      case None => None
      case Some(n) =>
        var value := if negative then 0 - n else n as int;
        if MIN_INT64 <= value <= MAX_INT64 then Some(value) else None
  }

  /** The verb %d on a non-negative integer. */
  function Itoa(n: nat): (s: string)
    ensures s != ""
    ensures forall c | c in s :: IsDigit(c)
  {
    if n < 10 then [Digit(n)] else Itoa(n / 10) + [Digit(n % 10)]
  }

  lemma {:induction false} DigitsValueOfItoa(n: nat)
    ensures DigitsValue(Itoa(n)) == Some(n)
  {
    var s := Itoa(n);
    if n < 10 {
      assert s[..|s| - 1] == "";
      assert DigitsValue("") == Some(0);
    } else {
      DigitsValueOfItoa(n / 10);
      assert s[..|s| - 1] == Itoa(n / 10);
    }
  }

  lemma AtoiOfItoa(n: nat)
    requires n <= MAX_INT64
    ensures Atoi(Itoa(n)) == Some(n)
  {
    DigitsValueOfItoa(n);
    assert Itoa(n)[0] in Itoa(n);
  }

  lemma {:induction false} DigitsOnly(s: string)
    ensures DigitsValue(s).Some? <==> forall c | c in s :: '0' <= c <= '9'
  {
    if s != "" {
      var k := |s| - 1;
      DigitsOnly(s[..k]);
      assert s == s[..k] + [s[k]];
      assert s[k] in s && forall c :: c in s[..k] ==> c in s;
    }
  }

  lemma {:induction false} LeadingZero(s: string)
    ensures DigitsValue("0" + s) == DigitsValue(s)
  {
    if s == "" {
      assert ("0" + s)[..0] == "" && "0" + s == "0";
      assert DigitsValue("") == Some(0);
    } else {
      var k := |s| - 1;
      LeadingZero(s[..k]);
      assert ("0" + s)[..k + 1] == "0" + s[..k];
    }
  }

  /** What Atoi takes: digits with at most one sign in front and a value within 64 bits. Zeros in
      front do not matter, a plus sign does not, and a minus sign negates. */
  lemma AtoiTakes(digits: string)
    requires digits != "" && forall c | c in digits :: '0' <= c <= '9'
    ensures Atoi("0" + digits) == Atoi(digits) && Atoi("+" + digits) == Atoi(digits)
    ensures Atoi(digits).Some? ==> Atoi(digits).value >= 0 && Atoi("-" + digits) == Some(0 - Atoi(digits).value)
  {
    DigitsOnly(digits);
    LeadingZero(digits);
    assert digits[0] in digits;
    assert ("+" + digits)[1..] == digits && ("-" + digits)[1..] == digits;
  }

  lemma AtoiOfNumber(n: nat)
    ensures Atoi(Itoa(n)) == if n <= MAX_INT64 then Some(n) else None
    ensures Atoi("-" + Itoa(n)) == if n <= MAX_INT64 + 1 then Some(0 - n) else None
  {
    DigitsValueOfItoa(n);
    assert Itoa(n)[0] in Itoa(n);
    assert ("-" + Itoa(n))[1..] == Itoa(n);
  }

  lemma AtoiRejects(s: string)
    requires var digits := if s != "" && s[0] in "+-" then s[1..] else s;
             digits == "" || exists c :: c in digits && !('0' <= c <= '9')
    ensures Atoi(s) == None
  {
    DigitsOnly(if s != "" && s[0] in "+-" then s[1..] else s);
  }

  // ---------------------------------------------------------------- substrings and lines

  predicate OccursAt(s: string, sub: string, i: nat) {
    i + |sub| <= |s| && forall k | 0 <= k < |sub| :: s[i + k] == sub[k]
  }

  /** strings.Contains. */
  predicate Contains(s: string, sub: string) {
    exists i | 0 <= i <= |s| :: OccursAt(s, sub, i)
  }

  function LineLength(s: string): (n: nat)
    ensures n <= |s|
    ensures '\n' !in s[..n]
    ensures n < |s| ==> s[n] == '\n'
  {
    if s == "" || s[0] == '\n' then 0
    else
      var n := LineLength(s[1..]);
      assert s[..1 + n] == [s[0]] + s[1..][..n];
      1 + n
  }

  /** strings.Split at newlines: the last line may be empty. */
  function Lines(s: string): (lines: seq<string>)
    ensures lines != []
    decreases |s|
  {
    var n := LineLength(s);
    if n == |s| then [s] else [s[..n]] + Lines(s[n + 1..])
  }

  lemma OccursInSlice(s: string, sub: string, lo: nat, hi: nat, i: nat)
    requires lo <= hi <= |s| && i + |sub| <= hi - lo
    ensures OccursAt(s[lo..hi], sub, i) <==> OccursAt(s, sub, lo + i)
  {
  }

  lemma SliceContains(s: string, sub: string, lo: nat, hi: nat)
    requires lo <= hi <= |s| && Contains(s[lo..hi], sub)
    ensures Contains(s, sub)
  {
    var i :| 0 <= i <= hi - lo && OccursAt(s[lo..hi], sub, i);
    OccursInSlice(s, sub, lo, hi, i);
  }

  /** Text without a newline lies before or after any newline of the string that contains it. */
  lemma SplitContains(s: string, sub: string, n: nat)
    requires n < |s| && s[n] == '\n' && '\n' !in sub && Contains(s, sub)
    ensures Contains(s[..n], sub) || Contains(s[n + 1..], sub)
  {
    var i :| 0 <= i <= |s| && OccursAt(s, sub, i);
    forall k | i <= k < i + |sub| ensures s[k] != '\n' {
      assert s[i + (k - i)] == sub[k - i];
    }
    if i + |sub| <= n {
      OccursInSlice(s, sub, 0, n, i);
    } else {
      assert s[n + 1..|s|] == s[n + 1..];
      OccursInSlice(s, sub, n + 1, |s|, i - n - 1);
    }
  }

  lemma LowerSlices(s: string, n: nat)
    requires n < |s|
    ensures Lower(s)[..n] == Lower(s[..n]) && Lower(s)[n + 1..] == Lower(s[n + 1..])
  {
  }

  /** Some line contains the text, whatever the case of the line. */
  predicate InSomeLine(lines: seq<string>, sub: string) {
    exists i | 0 <= i < |lines| :: Contains(Lower(lines[i]), sub)
  }

  lemma InFirstOrRest(first: string, rest: seq<string>, sub: string)
    ensures InSomeLine([first] + rest, sub) <==> Contains(Lower(first), sub) || InSomeLine(rest, sub)
  {
    var lines := [first] + rest;
    assert lines[0] == first;
    assert forall i | 0 <= i < |rest| :: lines[i + 1] == rest[i];
  }

  /** Text without a newline lies on one side of a newline or the other. */
  lemma ContainsInFirstOrRest(s: string, sub: string, n: nat)
    requires '\n' !in sub && n < |s| && s[n] == '\n'
    ensures Contains(Lower(s), sub) <==> Contains(Lower(s[..n]), sub) || Contains(Lower(s[n + 1..]), sub)
  {
    var lower := Lower(s);
    LowerSlices(s, n);
    if Contains(lower, sub) {
      SplitContains(lower, sub, n);
    }
    if Contains(lower[..n], sub) {
      SliceContains(lower, sub, 0, n);
    }
    if Contains(lower[n + 1..], sub) {
      assert lower[n + 1..|s|] == lower[n + 1..];
      SliceContains(lower, sub, n + 1, |s|);
    }
  }

  /** Text without a newline occurs in a lowered string exactly when it occurs in one of its lowered
      lines. */
  lemma {:induction false} ContainsInLine(s: string, sub: string)
    requires '\n' !in sub
    ensures Contains(Lower(s), sub) <==> InSomeLine(Lines(s), sub)
    decreases |s|
  {
    var n := LineLength(s);
    if n == |s| {
      assert Lines(s)[0] == s;
    } else {
      ContainsInFirstOrRest(s, sub, n);
      ContainsInLine(s[n + 1..], sub);
      InFirstOrRest(s[..n], Lines(s[n + 1..]), sub);
    }
  }
}
