/**
 * Headings as lines of a file: which lines they are, what level and title they have, and which lines above
 * are their ancestors. Says of the text itself what the scanner's paths are.
 */
module HeadingLines {
  import opened Common
  import opened Headings
  import opened Chunker

  // ---------------------------------------------------------------- one line

  /** The white space of a text. */
  lemma SpaceIsListed(c: char)
    ensures IsSpace(c) <==> c in {
      '\t', '\n', '\U{0B}', '\U{0C}', '\r', '\U{1C}', '\U{1D}', '\U{1E}', '\U{1F}', ' ', '\U{85}', '\U{A0}', '\U{1680}',
      '\U{2000}', '\U{2001}', '\U{2002}', '\U{2003}', '\U{2004}', '\U{2005}', '\U{2006}', '\U{2007}', '\U{2008}',
      '\U{2009}', '\U{200A}', '\U{2028}', '\U{2029}', '\U{202F}', '\U{205F}', '\U{3000}'}
  {
  }

  function Hashes(n: nat): string { seq(n, _ => '#') }

  lemma {:induction false} HashesLead(n: nat, rest: string)
    requires rest == "" || rest[0] != '#'
    ensures LeadingHashes(Hashes(n) + rest) == n
  {
    var line := Hashes(n) + rest;
    if n > 0 {
      HashesLead(n - 1, rest);
      assert line[1..] == Hashes(n - 1) + rest;
    } else {
      assert line == rest;
    }
  }

  /** One to six hashes and white space make a heading, of as many hashes' level, titled with what is left
      without the white space around it. */
  lemma HashesMakeHeading(n: nat, space: char, rest: string, clean: string -> string)
    requires 1 <= n <= 6 && IsSpace(space)
    ensures
      var line := Hashes(n) + [space] + rest;
      IsHeading(line) && HeadingOf(line, clean) == Heading(n, clean(Strip([space] + rest)))
  {
    var line := Hashes(n) + [space] + rest;
    assert line == Hashes(n) + ([space] + rest);
    HashesLead(n, [space] + rest);
    assert line[n..] == [space] + rest;
  }

  /** And no other line is a heading. */
  lemma HeadingIsHashes(line: string) returns (n: nat, space: char, rest: string)
    requires IsHeading(line)
    ensures 1 <= n <= 6 && IsSpace(space) && line == Hashes(n) + [space] + rest
  {
    n := LeadingHashes(line);
    space, rest := line[n], line[n + 1..];
    assert line[..n] == Hashes(n);
    assert line == line[..n] + [line[n]] + line[n + 1..];
  }

  /** Stripping takes away white space at both ends and nothing else. */
  lemma {:induction false} StripTakesSpace(s: string) returns (before: string, after: string)
    ensures s == before + Strip(s) + after && Blank(before) && Blank(after)
    ensures Strip(s) != "" ==> !IsSpace(Strip(s)[0]) && !IsSpace(Strip(s)[|Strip(s)| - 1])
    decreases |s|
  {
    if s != "" && IsSpace(s[0]) {
      before, after := StripTakesSpace(s[1..]);
      Prepend(s, before, Strip(s), after);
      before := [s[0]] + before;
    } else if s != "" && IsSpace(s[|s| - 1]) {
      var n := |s| - 1;
      before, after := StripTakesSpace(s[..n]);
      Append(s, before, Strip(s), after);
      after := after + [s[n]];
    } else {
      before, after := "", "";
    }
  }

  lemma Prepend(s: string, a: string, b: string, c: string)
    requires s != "" && s[1..] == a + b + c && IsSpace(s[0]) && Blank(a)
    ensures s == ([s[0]] + a) + b + c && Blank([s[0]] + a)
  {
    assert s == [s[0]] + s[1..];
  }

  lemma Append(s: string, a: string, b: string, c: string)
    requires s != "" && s[..|s| - 1] == a + b + c && IsSpace(s[|s| - 1]) && Blank(c)
    ensures s == a + b + (c + [s[|s| - 1]]) && Blank(c + [s[|s| - 1]])
  {
    assert s == s[..|s| - 1] + [s[|s| - 1]];
  }

  /** Joined lines are the lines with one newline between each two. */
  lemma {:induction false} JoinOfTwo(a: seq<string>, b: seq<string>)
    requires a != [] && b != []
    ensures Join(a + b) == Join(a) + "\n" + Join(b) && Join([b[0]]) == b[0]
  {
    var n := |b| - 1;
    assert (a + b)[..|a + b| - 1] == a + b[..n] && (a + b)[|a + b| - 1] == b[n];
    if n > 0 {
      JoinOfTwo(a, b[..n]);
    } else {
      assert a + b[..n] == a;
    }
  }

  // ---------------------------------------------------------------- the lines above

  /** The nearest heading line before i with fewer hashes than a level. */
  ghost function ParentLine(lines: seq<string>, body: nat, i: nat, level: nat): (r: Option<nat>)
    requires body <= i <= |lines|
    ensures r.Some? ==> body <= r.value < i && IsHeading(lines[r.value]) && LeadingHashes(lines[r.value]) < level
    ensures forall j | (if r.Some? then r.value + 1 else body) <= j < i && IsHeading(lines[j]) ::
      LeadingHashes(lines[j]) >= level
  {
    if i == body then None
    else if IsHeading(lines[i - 1]) && LeadingHashes(lines[i - 1]) < level then Some(i - 1)
    else ParentLine(lines, body, i - 1, level)
  }

  function TitleOf(line: string, clean: string -> string): string { clean(Strip(line[LeadingHashes(line)..])) }

  /** The titles of a heading line and of the lines it stands under, outermost first. */
  ghost function TitlesAbove(lines: seq<string>, body: nat, i: nat, clean: string -> string): seq<string>
    requires body <= i < |lines|
    decreases i
  {
    var parent := ParentLine(lines, body, i, LeadingHashes(lines[i]));
    (if parent.Some? then TitlesAbove(lines, body, parent.value, clean) else []) + [TitleOf(lines[i], clean)]
  }

  /** The titles above the last heading line at or before a line. */
  ghost function PathOfLine(lines: seq<string>, body: nat, i: nat, clean: string -> string): seq<string>
    requires body <= i < |lines|
    decreases i
  {
    if IsHeading(lines[i]) then TitlesAbove(lines, body, i, clean)
    else if i == body then []
    else PathOfLine(lines, body, i - 1, clean)
  }

  /** How many headings there are before a line of the body. */
  ghost function Before(lines: seq<string>, body: nat, i: nat, clean: string -> string): nat
    requires body <= i <= |lines|
  {
    |HeadingsIn(lines, body, i, clean)|
  }

  /** A heading line is the heading of its number. */
  lemma LineIsItsHeading(lines: seq<string>, body: nat, i: nat, clean: string -> string)
    requires body <= i < |lines| && IsHeading(lines[i])
    ensures
      var hs, n := HeadingsIn(lines, body, |lines|, clean), Before(lines, body, i, clean);
      && n < |hs| && hs[n] == Heading(LeadingHashes(lines[i]), TitleOf(lines[i], clean))
      && Before(lines, body, i + 1, clean) == n + 1
  {
    HeadingsGrow(lines, body, i + 1, |lines|, clean);
  }

  /** Looking back among the headings finds the parent line's. */
  lemma {:induction false} LookBackFindsParent(
    lines: seq<string>, body: nat, i: nat, level: nat, clean: string -> string)
    requires body <= i <= |lines| && Before(lines, body, i, clean) <= |HeadingsIn(lines, body, |lines|, clean)|
    ensures
      var hs := HeadingsIn(lines, body, |lines|, clean);
      var parent := ParentLine(lines, body, i, level);
      LookBack(hs, Before(lines, body, i, clean), level) ==
      if parent.Some? then Before(lines, body, parent.value, clean) + 1 else 0
    decreases i
  {
    if i > body {
      HeadingsGrow(lines, body, i - 1, |lines|, clean);
      if IsHeading(lines[i - 1]) { LineIsItsHeading(lines, body, i - 1, clean); }
      LookBackFindsParent(lines, body, i - 1, level, clean);
    }
  }

  /** The chain of a heading is that of its line. */
  lemma {:induction false} ChainIsTitlesAbove(lines: seq<string>, body: nat, i: nat, clean: string -> string)
    requires body <= i < |lines| && IsHeading(lines[i])
    ensures
      var hs, n := HeadingsIn(lines, body, |lines|, clean), Before(lines, body, i, clean);
      n < |hs| && Titles(Ancestors(hs, n)) == TitlesAbove(lines, body, i, clean)
    decreases i
  {
    LineIsItsHeading(lines, body, i, clean);
    LookBackFindsParent(lines, body, i, LeadingHashes(lines[i]), clean);
    var parent := ParentLine(lines, body, i, LeadingHashes(lines[i]));
    var hs, n := HeadingsIn(lines, body, |lines|, clean), Before(lines, body, i, clean);
    TitlesWithLast(Chain(hs, LookBack(hs, n, hs[n].level)), hs[n]);
    if parent.Some? {
      ChainIsTitlesAbove(lines, body, parent.value, clean);
    } else {
      assert Titles(Chain(hs, 0)) == [];
    }
  }

  lemma TitlesWithLast(hs: seq<Heading>, h: Heading)
    ensures Titles(hs + [h]) == Titles(hs) + [h.title]
  {
  }

  /** The last heading at or before a line is that of the line its path is of. */
  lemma {:induction false} PathOfLineIsChain(lines: seq<string>, body: nat, i: nat, clean: string -> string)
    requires body <= i < |lines|
    ensures
      var hs, n := HeadingsIn(lines, body, |lines|, clean), Before(lines, body, i + 1, clean);
      && n <= |hs|
      && PathOfLine(lines, body, i, clean) == if n == 0 then [] else Titles(Ancestors(hs, n - 1))
    decreases i
  {
    HeadingsGrow(lines, body, i + 1, |lines|, clean);
    if IsHeading(lines[i]) {
      LineIsItsHeading(lines, body, i, clean);
      ChainIsTitlesAbove(lines, body, i, clean);
    } else if i > body {
      PathOfLineIsChain(lines, body, i - 1, clean);
    }
  }

  /** The heading line is deeper than the heading line before it, or stands under as many as it has levels
      above it. */
  ghost predicate NoGapAt(lines: seq<string>, body: nat, i: nat, clean: string -> string)
    requires body <= i < |lines|
  {
    && IsHeading(lines[i])
    ==> (forall j: nat | LastHeadingBefore(lines, body, i, j) :: LeadingHashes(lines[i]) <= LeadingHashes(lines[j]) ==>
           |TitlesAbove(lines, body, i, clean)| == LeadingHashes(lines[i]))
  }

  /** Line j is the last heading line before line i. */
  ghost predicate LastHeadingBefore(lines: seq<string>, body: nat, i: nat, j: nat)
    requires body <= i < |lines|
  {
    body <= j < i && IsHeading(lines[j]) && forall k | j < k < i :: !IsHeading(lines[k])
  }

  lemma {:induction false} LastHeading(lines: seq<string>, body: nat, i: nat, clean: string -> string) returns (j: nat)
    requires body <= i < |lines| && Before(lines, body, i, clean) > 0
    ensures LastHeadingBefore(lines, body, i, j) && Before(lines, body, j, clean) == Before(lines, body, i, clean) - 1
    decreases i
  {
    j := i - 1;
    if !IsHeading(lines[i - 1]) { j := LastHeading(lines, body, i - 1, clean); }
  }

  lemma LastHeadingIsOne(lines: seq<string>, body: nat, i: nat, j: nat, k: nat)
    requires body <= i < |lines| && LastHeadingBefore(lines, body, i, j) && LastHeadingBefore(lines, body, i, k)
    ensures j == k
  {
  }

  lemma {:induction false} NoHeadingBefore(lines: seq<string>, body: nat, i: nat, j: nat, clean: string -> string)
    requires body <= j < i <= |lines| && IsHeading(lines[j])
    ensures Before(lines, body, i, clean) > 0
    decreases i
  {
    if i - 1 > j { NoHeadingBefore(lines, body, i - 1, j, clean); }
  }

  /** A gap on the lines is one among the headings. */
  lemma GapsAgree(lines: seq<string>, body: nat, i: nat, clean: string -> string)
    requires body <= i < |lines| && IsHeading(lines[i])
    ensures
      var hs, n := HeadingsIn(lines, body, |lines|, clean), Before(lines, body, i, clean);
      n < |hs| && (NoGapAt(lines, body, i, clean) <==> NoGapOnReturn(hs, n))
  {
    var hs, n := HeadingsIn(lines, body, |lines|, clean), Before(lines, body, i, clean);
    LineIsItsHeading(lines, body, i, clean);
    ChainIsTitlesAbove(lines, body, i, clean);
    if n > 0 {
      var j := LastHeading(lines, body, i, clean);
      LineIsItsHeading(lines, body, j, clean);
      forall k: nat | LastHeadingBefore(lines, body, i, k) ensures k == j { LastHeadingIsOne(lines, body, i, j, k); }
    } else {
      forall k: nat ensures !LastHeadingBefore(lines, body, i, k) {
        if LastHeadingBefore(lines, body, i, k) { NoHeadingBefore(lines, body, i, k, clean); }
      }
    }
  }

  /** Every line's path is that of the lines it stands under exactly when no heading line leaves a gap. */
  lemma PathsAreOfLinesIffNoGap(lines: seq<string>, body: nat, clean: string -> string)
    requires body <= |lines|
    ensures
      (forall i | body <= i < |lines| :: PathAt(lines, body, i, clean) == PathOfLine(lines, body, i, clean)) <==>
      forall i | body <= i < |lines| :: NoGapAt(lines, body, i, clean)
  {
    var hs := HeadingsIn(lines, body, |lines|, clean);
    PathAtHeadingIsAncestors(lines, body, clean);
    forall i | body <= i < |lines|
      ensures PathIsTrue(lines, body, i, clean) <==>
        PathAt(lines, body, i, clean) == PathOfLine(lines, body, i, clean)
    {
      PathOfLineIsChain(lines, body, i, clean);
    }
    if NoGaps(hs, |hs|) {
      forall i | body <= i < |lines| ensures NoGapAt(lines, body, i, clean) {
        if IsHeading(lines[i]) { GapsAgree(lines, body, i, clean); }
      }
    }
    if forall i | body <= i < |lines| :: NoGapAt(lines, body, i, clean) {
      forall n | 0 <= n < |hs| ensures NoGapOnReturn(hs, n) {
        var i := LineOfHeading(lines, body, |lines|, clean, n);
        HeadingAtLine(lines, body, i, n, clean);
      }
    }
  }

  lemma HeadingAtLine(lines: seq<string>, body: nat, i: nat, n: nat, clean: string -> string)
    requires body <= i < |lines| && Before(lines, body, i, clean) == n && IsHeading(lines[i])
    requires NoGapAt(lines, body, i, clean)
    ensures n < |HeadingsIn(lines, body, |lines|, clean)|
    ensures NoGapOnReturn(HeadingsIn(lines, body, |lines|, clean), n)
  {
    GapsAgree(lines, body, i, clean);
  }
}
