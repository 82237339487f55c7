/**
 * Splitting a Markdown file into citable chunks: front matter, the line scanner, and what its line ranges
 * amount to. A file is its list of lines; cleaning a heading's markup is any function of its text.
 */
module Chunker {
  import opened Common
  import opened Headings

  const MAX_CHUNK_CHARS := 2800

  // ---------------------------------------------------------------- lines

  /** Unicode white space, as string stripping and the heading pattern see it. */
  predicate IsSpace(c: char) {
    var u := c as int;
    || 0x09 <= u <= 0x0d || 0x1c <= u <= 0x20 || u == 0x85 || u == 0xa0 || u == 0x1680
    || 0x2000 <= u <= 0x200a || u == 0x2028 || u == 0x2029 || u == 0x202f || u == 0x205f || u == 0x3000
  }

  predicate Blank(line: string) { forall i | 0 <= i < |line| :: IsSpace(line[i]) }

  function Strip(s: string): string {
    if s != [] && IsSpace(s[0]) then Strip(s[1..])
    else if s != [] && IsSpace(s[|s| - 1]) then Strip(s[..|s| - 1])
    else s
  }

  function LeadingHashes(line: string): (n: nat)
    ensures n <= |line| && (forall i | 0 <= i < n :: line[i] == '#') && (n < |line| ==> line[n] != '#')
  {
    if line != [] && line[0] == '#' then 1 + LeadingHashes(line[1..]) else 0
  }

  /** One to six hashes and then white space. */
  predicate IsHeading(line: string) {
    var n := LeadingHashes(line);
    1 <= n <= 6 && n < |line| && IsSpace(line[n])
  }

  function HeadingOf(line: string, clean: string -> string): Heading {
    Heading(LeadingHashes(line), clean(Strip(line[LeadingHashes(line)..])))
  }

  lemma HeadingIsNotBlank(line: string)
    requires IsHeading(line)
    ensures !Blank(line)
  {
    assert !IsSpace(line[0]);
  }

  lemma BlankIsNotHeading(line: string)
    requires Blank(line)
    ensures !IsHeading(line)
  {
    if IsHeading(line) { HeadingIsNotBlank(line); }
  }

  /** The lines with a newline between each two. */
  function Join(lines: seq<string>): string {
    if lines == [] then ""
    else if |lines| == 1 then lines[0]
    else Join(lines[..|lines| - 1]) + "\n" + lines[|lines| - 1]
  }

  // ---------------------------------------------------------------- front matter

  datatype FrontMatterError = NoClosingDelimiter | NotAMapping

  predicate IsDelimiter(line: string) { Strip(line) == "---" }

  function NextDelimiter(lines: seq<string>, from: nat): (r: Option<nat>)
    requires from <= |lines|
    ensures r.Some? ==> from <= r.value < |lines| && IsDelimiter(lines[r.value])
    ensures forall i | from <= i < (if r.Some? then r.value else |lines|) :: !IsDelimiter(lines[i])
    decreases |lines| - from
  {
    if from == |lines| then None
    else if IsDelimiter(lines[from]) then Some(from)
    else NextDelimiter(lines, from + 1)
  }

  /** Where the body starts, in lines: `isMapping` tells whether the YAML between the delimiters loads to
      a mapping or to nothing. */
  function BodyStart(lines: seq<string>, isMapping: seq<string> -> bool): (r: Result<nat, FrontMatterError>)
    ensures r.Ok? ==> r.value <= |lines|
  {
    if lines == [] || !IsDelimiter(lines[0]) then Ok(0)
    else
      var close := NextDelimiter(lines, 1);
      if close.None? then Error(NoClosingDelimiter)
      else if !isMapping(lines[1..close.value]) then Error(NotAMapping)
      else Ok(close.value + 1)
  }

  /** Front matter opens on the first line and closes at the next delimiter. */
  predicate ClosesAt(lines: seq<string>, end: nat) {
    && 1 <= end < |lines| && IsDelimiter(lines[0]) && IsDelimiter(lines[end])
    && forall i | 1 <= i < end :: !IsDelimiter(lines[i])
  }

  /** The whole file is body exactly when it does not open with a delimiter. Otherwise the body starts after
      the first delimiter that closes it, if what is between is a mapping, and the two refusals are exactly
      for no such delimiter and for anything else between. */
  lemma FrontMatterIsExact(lines: seq<string>, isMapping: seq<string> -> bool)
    ensures var opens := lines != [] && IsDelimiter(lines[0]);
      && (BodyStart(lines, isMapping) == Ok(0) <==> !opens)
      && (BodyStart(lines, isMapping) == Error(NoClosingDelimiter) <==>
            opens && forall end: nat :: !ClosesAt(lines, end))
    ensures forall end: nat | ClosesAt(lines, end) ::
      BodyStart(lines, isMapping) == if isMapping(lines[1..end]) then Ok(end + 1) else Error(NotAMapping)
  {
    if lines != [] && IsDelimiter(lines[0]) {
      var close := NextDelimiter(lines, 1);
      if close.Some? { assert ClosesAt(lines, close.value); }
      forall end: nat | ClosesAt(lines, end) ensures close == Some(end) {}
    }
  }

  // ---------------------------------------------------------------- what a chunk is

  /** A chunk of lines `lineStart` to `lineEnd`, counted from one. */
  datatype Chunk = Chunk(headingPath: seq<string>, lineStart: nat, lineEnd: nat, content: string)

  ghost predicate HasText(lines: seq<string>, from: nat, upto: nat)
    requires upto <= |lines|
  {
    exists i :: from <= i < upto && !Blank(lines[i])
  }

  /** A text line has brought the lines from s to e up to the size limit. */
  ghost predicate Full(lines: seq<string>, s: nat, e: nat)
    requires s < e <= |lines|
  {
    !Blank(lines[e - 1]) && !IsHeading(lines[e - 1]) && |Join(lines[s..e])| >= MAX_CHUNK_CHARS
  }

  /** A chunk begun at line s (counted from zero) goes no further than before line e. */
  ghost predicate Stops(lines: seq<string>, s: nat, e: nat)
    requires s < e <= |lines|
  {
    || e == |lines|
    || IsHeading(lines[e])
    || (Blank(lines[e]) && HasText(lines, s + 1, e))
    || Full(lines, s, e)
  }

  ghost function HeadingsIn(lines: seq<string>, from: nat, to: nat, clean: string -> string): (r: seq<Heading>)
    requires from <= to <= |lines|
    ensures WellLevelled(r)
  {
    if from == to then []
    else
      var earlier := HeadingsIn(lines, from, to - 1, clean);
      if IsHeading(lines[to - 1]) then earlier + [HeadingOf(lines[to - 1], clean)] else earlier
  }

  /** The heading path in force at a body line. */
  ghost function PathAt(lines: seq<string>, body: nat, i: nat, clean: string -> string): seq<string>
    requires body <= i < |lines|
  {
    Titles(Stack(HeadingsIn(lines, body, i + 1, clean)))
  }

  /** A chunk begun at line s need not stop before line e. */
  ghost predicate RunsTo(lines: seq<string>, s: nat, e: nat)
    requires e <= |lines|
  {
    forall m | s < m < e :: !Stops(lines, s, m)
  }

  /** The chunk begins at a line with text, ends at the first place it has to, and holds the lines between
      under the path in force at its first. */
  ghost predicate IsChunk(lines: seq<string>, body: nat, clean: string -> string, c: Chunk) {
    && body < c.lineStart <= c.lineEnd <= |lines|
    && !Blank(lines[c.lineStart - 1])
    && Stops(lines, c.lineStart - 1, c.lineEnd)
    && RunsTo(lines, c.lineStart - 1, c.lineEnd)
    && c.content == Join(lines[c.lineStart - 1..c.lineEnd])
    && c.headingPath == PathAt(lines, body, c.lineStart - 1, clean)
  }

  ghost function Chunks(lines: seq<string>, body: nat, clean: string -> string): iset<Chunk> {
    iset c: Chunk | IsChunk(lines, body, clean, c)
  }

  ghost function Blanks(lines: seq<string>): iset<nat> { iset i: nat | i < |lines| && Blank(lines[i]) }

  /** Only blank lines from one line to before another. */
  ghost predicate Gap(blanks: iset<nat>, from: nat, upto: nat) {
    from <= upto && forall i | from <= i < upto :: i in blanks
  }

  /** From one line up to another there are these chunks in turn, all of the given kind, and only blank lines
      before, between and after them. */
  ghost predicate Segmented(kind: iset<Chunk>, blanks: iset<nat>, from: nat, upto: nat, chunks: seq<Chunk>)
    decreases |chunks|
  {
    if chunks == [] then Gap(blanks, from, upto)
    else
      var c := chunks[0];
      && c in kind && 1 <= c.lineStart <= c.lineEnd
      && Gap(blanks, from, c.lineStart - 1)
      && Segmented(kind, blanks, c.lineEnd, upto, chunks[1..])
  }

  /** The chunks of a whole body. */
  ghost predicate ChunksOfBody(lines: seq<string>, body: nat, clean: string -> string, chunks: seq<Chunk>) {
    Segmented(Chunks(lines, body, clean), Blanks(lines), body, |lines|, chunks)
  }

  lemma {:induction false} BlankExtends(kind: iset<Chunk>, blanks: iset<nat>, from: nat, upto: nat, chunks: seq<Chunk>)
    requires Segmented(kind, blanks, from, upto, chunks) && upto in blanks
    ensures Segmented(kind, blanks, from, upto + 1, chunks)
    decreases |chunks|
  {
    if chunks != [] { BlankExtends(kind, blanks, chunks[0].lineEnd, upto, chunks[1..]); }
  }

  lemma {:induction false} ChunkExtends(kind: iset<Chunk>, blanks: iset<nat>, from: nat, chunks: seq<Chunk>, c: Chunk)
    requires c in kind && 1 <= c.lineStart <= c.lineEnd && Segmented(kind, blanks, from, c.lineStart - 1, chunks)
    ensures Segmented(kind, blanks, from, c.lineEnd, chunks + [c])
    decreases |chunks|
  {
    if chunks == [] {
      assert (chunks + [c])[1..] == [];
    } else {
      ChunkExtends(kind, blanks, chunks[0].lineEnd, chunks[1..], c);
      assert (chunks + [c])[1..] == chunks[1..] + [c];
    }
  }

  // ---------------------------------------------------------------- the scanner

  /** The scanner's variables: the chunks so far, the heading stack, the path for the chunk in progress and
      its lines, with no start when there is none. */
  datatype Scan = Scan(
    chunks: seq<Chunk>, stack: seq<string>, path: seq<string>, current: seq<string>, start: Option<nat>, end: nat)

  /** The chunk in progress becomes a chunk, if it has text, and none is in progress any more. */
  function Flush(scan: Scan): Scan {
    var done := scan.(current := [], start := None, end := 0);
    if scan.start.None? || forall i | 0 <= i < |scan.current| :: Blank(scan.current[i]) then done
    else done.(chunks := scan.chunks + [Chunk(scan.path, scan.start.value, scan.end, Join(scan.current))])
  }

  /** A chunk in progress from line s up to before line n, under the path of its first line. */
  ghost predicate InProgress(
    lines: seq<string>, body: nat, clean: string -> string, s: nat, n: nat, path: seq<string>) {
    body <= s < n <= |lines| && !Blank(lines[s]) && RunsTo(lines, s, n) && path == PathAt(lines, body, s, clean)
  }

  /** The scanner's state before line n. */
  ghost predicate Scanned(lines: seq<string>, body: nat, clean: string -> string, n: nat, scan: Scan) {
    && body <= n <= |lines|
    && scan.stack == scan.path == Titles(Stack(HeadingsIn(lines, body, n, clean)))
    && if scan.start.None? then
         scan.current == [] && Segmented(Chunks(lines, body, clean), Blanks(lines), body, n, scan.chunks)
       else
         var s := scan.start.value - 1;
         && s >= 0 && scan.end == n && InProgress(lines, body, clean, s, n, scan.path)
         && scan.current == lines[s..n]
         && Segmented(Chunks(lines, body, clean), Blanks(lines), body, s, scan.chunks)
  }

  /** Flushing lines s to before e, when they have to stop there, adds their chunk. */
  lemma FlushSegments(lines: seq<string>, body: nat, clean: string -> string, n: nat, scan: Scan)
    requires Scanned(lines, body, clean, n, scan)
    requires scan.start.Some? ==> Stops(lines, scan.start.value - 1, n)
    ensures Flush(scan).start.None? && Scanned(lines, body, clean, n, Flush(scan))
  {
    if scan.start.Some? {
      var s := scan.start.value - 1;
      assert lines[s..n][0] == lines[s];
      var c := Chunk(scan.path, s + 1, n, Join(lines[s..n]));
      assert c in Chunks(lines, body, clean);
      ChunkExtends(Chunks(lines, body, clean), Blanks(lines), body, scan.chunks, c);
    }
  }

  /** The titles on the stack after a heading line. */
  function PushTitle(stack: seq<string>, line: string, clean: string -> string): seq<string>
    requires IsHeading(line)
  {
    var h := HeadingOf(line, clean);
    (if h.level - 1 <= |stack| then stack[..h.level - 1] else stack) + [h.title]
  }

  lemma PushTitleIsPath(lines: seq<string>, body: nat, n: nat, clean: string -> string, stack: seq<string>)
    requires body <= n < |lines| && IsHeading(lines[n]) && stack == Titles(Stack(HeadingsIn(lines, body, n, clean)))
    ensures PushTitle(stack, lines[n], clean) == PathAt(lines, body, n, clean)
  {
    var hs, h := HeadingsIn(lines, body, n, clean), HeadingOf(lines[n], clean);
    assert (hs + [h])[..|hs|] == hs;
    TitlesOfPush(Stack(hs), h);
  }

  lemma TitlesOfPush(stack: seq<Heading>, h: Heading)
    requires h.level >= 1
    ensures Titles(Push(stack, h)) ==
      (if h.level - 1 <= |stack| then Titles(stack)[..h.level - 1] else Titles(stack)) + [h.title]
  {
  }

  lemma TextSeen(lines: seq<string>, s: nat, n: nat, current: seq<string>)
    requires s < n <= |lines| && current == lines[s..n]
    ensures HasText(lines, s + 1, n) <==> exists i :: 1 <= i < |current| && !Blank(current[i])
  {
    if HasText(lines, s + 1, n) {
      var i :| s + 1 <= i < n && !Blank(lines[i]);
      assert current[i - s] == lines[i];
    }
  }

  lemma HeadingsStay(lines: seq<string>, body: nat, n: nat, clean: string -> string)
    requires body <= n < |lines| && !IsHeading(lines[n])
    ensures HeadingsIn(lines, body, n + 1, clean) == HeadingsIn(lines, body, n, clean)
  {
  }

  /** A line that need not stop the chunk in progress joins it. */
  lemma LineJoins(lines: seq<string>, body: nat, clean: string -> string, n: nat, scan: Scan)
    requires n < |lines| && Scanned(lines, body, clean, n, scan) && scan.start.Some?
    requires !Stops(lines, scan.start.value - 1, n)
    ensures Scanned(lines, body, clean, n + 1, scan.(current := scan.current + [lines[n]], end := n + 1))
  {
    HeadingsStay(lines, body, n, clean);
    var s := scan.start.value - 1;
    RunsFurther(lines, s, n);
    assert lines[s..n + 1] == lines[s..n] + [lines[n]];
  }

  lemma RunsFurther(lines: seq<string>, s: nat, n: nat)
    requires s < n < |lines| && RunsTo(lines, s, n) && !Stops(lines, s, n)
    ensures RunsTo(lines, s, n + 1)
  {
  }

  /** A text line, or a heading with its stack, begins a chunk when none is in progress. */
  lemma LineBegins(lines: seq<string>, body: nat, clean: string -> string, n: nat, scan: Scan, stack: seq<string>)
    requires n < |lines| && !Blank(lines[n]) && Scanned(lines, body, clean, n, scan) && scan.start.None?
    requires stack == PathAt(lines, body, n, clean)
    ensures
      var next := scan.(stack := stack, path := stack, current := [lines[n]], start := Some(n + 1), end := n + 1);
      Scanned(lines, body, clean, n + 1, next)
  {
    assert lines[n..n + 1] == [lines[n]];
    assert RunsTo(lines, n, n + 1);
  }

  /** A heading ends the chunk in progress and begins another, under its own place in the stack. */
  method TakeHeading(
    scan: Scan, lines: seq<string>, n: nat, clean: string -> string, ghost body: nat) returns (next: Scan)
    requires n < |lines| && IsHeading(lines[n]) && Scanned(lines, body, clean, n, scan)
    ensures Scanned(lines, body, clean, n + 1, next) && !Filled(lines, n + 1, next)
  {
    FlushSegments(lines, body, clean, n, scan);
    HeadingIsNotBlank(lines[n]);
    var done := Flush(scan);
    var stack := PushTitle(done.stack, lines[n], clean);
    PushTitleIsPath(lines, body, n, clean, done.stack);
    next := done.(stack := stack, path := stack, current := [lines[n]], start := Some(n + 1), end := n + 1);
    LineBegins(lines, body, clean, n, done, stack);
  }

  /** A blank line ends a chunk that has text after its first line; another it joins. */
  method TakeBlank(
    scan: Scan, lines: seq<string>, n: nat, ghost clean: string -> string, ghost body: nat) returns (next: Scan)
    requires n < |lines| && Blank(lines[n]) && Scanned(lines, body, clean, n, scan) && !Filled(lines, n, scan)
    ensures Scanned(lines, body, clean, n + 1, next) && !Filled(lines, n + 1, next)
  {
    if scan.current != [] && exists i :: 1 <= i < |scan.current| && !Blank(scan.current[i]) {
      BlankEnds(lines, body, clean, n, scan);
      next := Flush(scan);
    } else if scan.current != [] {
      BlankJoins(lines, body, clean, n, scan);
      next := scan.(current := scan.current + [lines[n]], end := n + 1);
    } else {
      BlankSkips(lines, body, clean, n, scan);
      next := scan;
    }
  }

  lemma BlankEnds(lines: seq<string>, body: nat, clean: string -> string, n: nat, scan: Scan)
    requires n < |lines| && Blank(lines[n]) && Scanned(lines, body, clean, n, scan)
    requires exists i :: 1 <= i < |scan.current| && !Blank(scan.current[i])
    ensures Flush(scan).start.None? && Scanned(lines, body, clean, n + 1, Flush(scan))
  {
    TextSeen(lines, scan.start.value - 1, n, scan.current);
    FlushSegments(lines, body, clean, n, scan);
    BlankSkips(lines, body, clean, n, Flush(scan));
  }

  lemma BlankJoins(lines: seq<string>, body: nat, clean: string -> string, n: nat, scan: Scan)
    requires n < |lines| && Blank(lines[n]) && Scanned(lines, body, clean, n, scan) && !Filled(lines, n, scan)
    requires scan.start.Some? && !exists i :: 1 <= i < |scan.current| && !Blank(scan.current[i])
    ensures
      var next := scan.(current := scan.current + [lines[n]], end := n + 1);
      Scanned(lines, body, clean, n + 1, next) && !Filled(lines, n + 1, next)
  {
    BlankIsNotHeading(lines[n]);
    TextSeen(lines, scan.start.value - 1, n, scan.current);
    LineJoins(lines, body, clean, n, scan);
  }

  lemma BlankSkips(lines: seq<string>, body: nat, clean: string -> string, n: nat, scan: Scan)
    requires n < |lines| && Blank(lines[n]) && Scanned(lines, body, clean, n, scan) && scan.start.None?
    ensures Scanned(lines, body, clean, n + 1, scan)
  {
    BlankIsNotHeading(lines[n]);
    HeadingsStay(lines, body, n, clean);
    BlankExtends(Chunks(lines, body, clean), Blanks(lines), body, n, scan.chunks);
  }

  /** The line joins the chunk in progress, or begins one. */
  function Extended(scan: Scan, line: string, n: nat): Scan {
    if scan.start.None? then scan.(current := [line], start := Some(n + 1), end := n + 1)
    else scan.(current := scan.current + [line], end := n + 1)
  }

  lemma TextExtends(lines: seq<string>, body: nat, clean: string -> string, n: nat, scan: Scan)
    requires n < |lines| && !Blank(lines[n]) && !IsHeading(lines[n])
    requires Scanned(lines, body, clean, n, scan) && !Filled(lines, n, scan)
    ensures Scanned(lines, body, clean, n + 1, Extended(scan, lines[n], n)) && Extended(scan, lines[n], n).start.Some?
  {
    if scan.start.None? {
      HeadingsStay(lines, body, n, clean);
      LineBegins(lines, body, clean, n, scan, scan.stack);
    } else {
      LineJoins(lines, body, clean, n, scan);
    }
  }

  /** Any other line joins the chunk in progress, or begins one, and flushes it when it is full. */
  method TakeText(
    scan: Scan, lines: seq<string>, n: nat, ghost clean: string -> string, ghost body: nat) returns (next: Scan)
    requires n < |lines| && !Blank(lines[n]) && !IsHeading(lines[n])
    requires Scanned(lines, body, clean, n, scan) && !Filled(lines, n, scan)
    ensures Scanned(lines, body, clean, n + 1, next) && !Filled(lines, n + 1, next)
  {
    TextExtends(lines, body, clean, n, scan);
    next := Extended(scan, lines[n], n);
    TextFills(lines, body, clean, n, next);
    if |Join(next.current)| >= MAX_CHUNK_CHARS {
      FlushSegments(lines, body, clean, n + 1, next);
      next := Flush(next);
    }
  }

  /** After a text line the chunk in progress is full exactly when it is long enough, and then it stops. */
  lemma TextFills(lines: seq<string>, body: nat, clean: string -> string, n: nat, scan: Scan)
    requires n < |lines| && !Blank(lines[n]) && !IsHeading(lines[n])
    requires Scanned(lines, body, clean, n + 1, scan) && scan.start.Some?
    ensures Filled(lines, n + 1, scan) <==> |Join(scan.current)| >= MAX_CHUNK_CHARS
    ensures Filled(lines, n + 1, scan) ==> Stops(lines, scan.start.value - 1, n + 1)
  {
  }

  /** Every chunk of the body, in order. */
  method ParseBody(lines: seq<string>, body: nat, clean: string -> string) returns (chunks: seq<Chunk>)
    requires body <= |lines|
    ensures ChunksOfBody(lines, body, clean, chunks)
  {
    var scan := Scan([], [], [], [], None, 0);
    for n := body to |lines|
      invariant Scanned(lines, body, clean, n, scan) && !Filled(lines, n, scan)
    {
      if IsHeading(lines[n]) {
        scan := TakeHeading(scan, lines, n, clean, body);
      } else if Blank(lines[n]) {
        scan := TakeBlank(scan, lines, n, clean, body);
      } else {
        scan := TakeText(scan, lines, n, clean, body);
      }
    }
    FlushSegments(lines, body, clean, |lines|, scan);
    chunks := Flush(scan).chunks;
  }

  /** The chunk in progress before line n is full already. */
  ghost predicate Filled(lines: seq<string>, n: nat, scan: Scan) {
    scan.start.Some? && 0 < scan.start.value <= n <= |lines| && Full(lines, scan.start.value - 1, n)
  }

  /** The chunks of a file, or the reason its front matter is refused. */
  method ParseMarkdown(lines: seq<string>, isMapping: seq<string> -> bool, clean: string -> string)
    returns (result: Result<seq<Chunk>, FrontMatterError>)
    ensures BodyStart(lines, isMapping).Error? ==> result == Error(BodyStart(lines, isMapping).error)
    ensures BodyStart(lines, isMapping).Ok? ==>
      var body := BodyStart(lines, isMapping).value; result.Ok? && ChunksOfBody(lines, body, clean, result.value)
  {
    match BodyStart(lines, isMapping)
    case Error(e) => result := Error(e);
    case Ok(body) =>
      var chunks := ParseBody(lines, body, clean);
      result := Ok(chunks);
  }

  // ---------------------------------------------------------------- what the ranges amount to

  /** Chunks come in strictly increasing, disjoint ranges. */
  lemma {:induction false} RangesIncrease(
    kind: iset<Chunk>, blanks: iset<nat>, from: nat, upto: nat, chunks: seq<Chunk>, j: nat, k: nat)
    requires Segmented(kind, blanks, from, upto, chunks) && j < k < |chunks|
    ensures from < chunks[j].lineStart <= chunks[j].lineEnd < chunks[k].lineStart
    decreases k
  {
    if k > 1 { RangesIncrease(kind, blanks, chunks[0].lineEnd, upto, chunks[1..], if j == 0 then 0 else j - 1, k - 1); }
  }

  predicate Holds(c: Chunk, i: nat) { c.lineStart - 1 <= i < c.lineEnd }

  lemma {:induction false} ChunkHolding(
    kind: iset<Chunk>, blanks: iset<nat>, from: nat, upto: nat, chunks: seq<Chunk>, i: nat)
    returns (k: nat)
    requires Segmented(kind, blanks, from, upto, chunks) && from <= i < upto && i !in blanks
    ensures k < |chunks| && Holds(chunks[k], i)
    decreases |chunks|
  {
    k := 0;
    if !Holds(chunks[0], i) {
      var later := ChunkHolding(kind, blanks, chunks[0].lineEnd, upto, chunks[1..], i);
      k := later + 1;
    }
  }

  /** Every line of the body with text is in exactly one chunk. */
  lemma EachTextLineIsInOneChunk(lines: seq<string>, body: nat, clean: string -> string, chunks: seq<Chunk>, i: nat)
    requires ChunksOfBody(lines, body, clean, chunks) && body <= i < |lines| && !Blank(lines[i])
    ensures exists k :: 0 <= k < |chunks| && Holds(chunks[k], i)
    ensures forall j, k | 0 <= j < |chunks| && 0 <= k < |chunks| && Holds(chunks[j], i) && Holds(chunks[k], i) :: j == k
  {
    var kind, blanks := Chunks(lines, body, clean), Blanks(lines);
    var k := ChunkHolding(kind, blanks, body, |lines|, chunks, i);
    forall j, k | 0 <= j < |chunks| && 0 <= k < |chunks| && Holds(chunks[j], i) && Holds(chunks[k], i) ensures j == k {
      if j < k { RangesIncrease(kind, blanks, body, |lines|, chunks, j, k); }
      if k < j { RangesIncrease(kind, blanks, body, |lines|, chunks, k, j); }
    }
  }

  /** Chunks of a kind begin with text, and the first line determines the chunk. */
  ghost predicate Determined(kind: iset<Chunk>, blanks: iset<nat>, upto: nat) {
    && (forall c | c in kind :: 1 <= c.lineStart <= upto && c.lineStart - 1 !in blanks)
    && (forall c, d | c in kind && d in kind && c.lineStart == d.lineStart :: c == d)
  }

  lemma ChunksAreDetermined(lines: seq<string>, body: nat, clean: string -> string)
    ensures Determined(Chunks(lines, body, clean), Blanks(lines), |lines|)
  {
    var kind := Chunks(lines, body, clean);
    forall c, d | c in kind && d in kind && c.lineStart == d.lineStart ensures c == d {
      SameStartSameEnd(lines, c.lineStart - 1, c.lineEnd, d.lineEnd);
    }
  }

  lemma SameStartSameEnd(lines: seq<string>, s: nat, d: nat, e: nat)
    requires s < d <= |lines| && s < e <= |lines|
    requires Stops(lines, s, d) && RunsTo(lines, s, d) && Stops(lines, s, e) && RunsTo(lines, s, e)
    ensures d == e
  {
  }

  lemma {:induction false} SegmentationIsUnique(
    kind: iset<Chunk>, blanks: iset<nat>, from: nat, upto: nat, a: seq<Chunk>, b: seq<Chunk>)
    requires Determined(kind, blanks, upto)
    requires Segmented(kind, blanks, from, upto, a) && Segmented(kind, blanks, from, upto, b)
    ensures a == b
    decreases |a|
  {
    if a != [] && b != [] {
      var s, t := a[0].lineStart - 1, b[0].lineStart - 1;
      assert s !in blanks && t !in blanks;
      assert s == t;
      SegmentationIsUnique(kind, blanks, a[0].lineEnd, upto, a[1..], b[1..]);
    }
  }

  /** A body has one segmentation, so the scanner's chunks are determined by what a chunk is. */
  lemma ChunksAreUnique(lines: seq<string>, body: nat, clean: string -> string, a: seq<Chunk>, b: seq<Chunk>)
    requires ChunksOfBody(lines, body, clean, a) && ChunksOfBody(lines, body, clean, b)
    ensures a == b
  {
    ChunksAreDetermined(lines, body, clean);
    SegmentationIsUnique(Chunks(lines, body, clean), Blanks(lines), body, |lines|, a, b);
  }

  lemma {:induction false} ChunkIsOfKind(
    kind: iset<Chunk>, blanks: iset<nat>, from: nat, upto: nat, chunks: seq<Chunk>, k: nat)
    requires Segmented(kind, blanks, from, upto, chunks) && k < |chunks|
    ensures chunks[k] in kind
    decreases k
  {
    if k > 0 { ChunkIsOfKind(kind, blanks, chunks[0].lineEnd, upto, chunks[1..], k - 1); }
  }

  /** A chunk's path is the one in force at every line of it: no heading stands inside. */
  lemma {:induction false} PathHoldsThroughout(lines: seq<string>, body: nat, clean: string -> string, c: Chunk, i: nat)
    requires IsChunk(lines, body, clean, c) && Holds(c, i)
    ensures PathAt(lines, body, i, clean) == c.headingPath
    decreases i
  {
    if i > c.lineStart - 1 {
      PathHoldsThroughout(lines, body, clean, c, i - 1);
      assert !Stops(lines, c.lineStart - 1, i);
      assert HeadingsIn(lines, body, i + 1, clean) == HeadingsIn(lines, body, i, clean);
    }
  }

  /** No chunk had reached the size limit before its last line with text. */
  lemma OnlyTheLastTextLineFills(lines: seq<string>, body: nat, clean: string -> string, c: Chunk, e: nat)
    requires IsChunk(lines, body, clean, c) && c.lineStart <= e < c.lineEnd
    requires !Blank(lines[e - 1]) && !IsHeading(lines[e - 1])
    ensures |Join(lines[c.lineStart - 1..e])| < 2800
  {
    assert !Stops(lines, c.lineStart - 1, e);
  }

  /** The heading paths of the body's lines are the true ancestor chains exactly when no heading leaves a
      gap: stated at each heading line of the body. */
  lemma PathAtHeadingIsAncestors(lines: seq<string>, body: nat, clean: string -> string)
    requires body <= |lines|
    ensures
      var hs := HeadingsIn(lines, body, |lines|, clean);
      (forall i | body <= i < |lines| :: PathIsTrue(lines, body, i, clean)) <==> NoGaps(hs, |hs|)
  {
    var hs := HeadingsIn(lines, body, |lines|, clean);
    PathIsAncestorsIffNoGap(hs, |hs|);
    if NoGaps(hs, |hs|) {
      forall i | body <= i < |lines| ensures PathIsTrue(lines, body, i, clean) {
        PathIsTrueAtLine(lines, body, i, clean);
      }
    } else {
      var j :| 0 <= j < |hs| && !PathIsAncestors(hs, j);
      var i := LineOfHeading(lines, body, |lines|, clean, j);
      PathIsTrueAtLine(lines, body, i, clean);
    }
  }

  lemma PathIsTrueAtLine(lines: seq<string>, body: nat, i: nat, clean: string -> string)
    requires body <= i < |lines|
    ensures
      var n := |HeadingsIn(lines, body, i + 1, clean)|;
      var hs := HeadingsIn(lines, body, |lines|, clean);
      n <= |hs| && (PathIsTrue(lines, body, i, clean) <==> n == 0 || PathIsAncestors(hs, n - 1))
  {
    HeadingsGrow(lines, body, i + 1, |lines|, clean);
  }

  /** The path in force at a line is that of the last heading before or at it, under its ancestors. */
  ghost predicate PathIsTrue(lines: seq<string>, body: nat, i: nat, clean: string -> string)
    requires body <= i < |lines|
  {
    var n := |HeadingsIn(lines, body, i + 1, clean)|;
    var hs := HeadingsIn(lines, body, |lines|, clean);
    n <= |hs| && PathAt(lines, body, i, clean) == (if n == 0 then [] else Titles(Ancestors(hs, n - 1)))
  }

  lemma {:induction false} HeadingsGrow(lines: seq<string>, body: nat, i: nat, until: nat, clean: string -> string)
    requires body <= i <= until <= |lines|
    ensures var n := |HeadingsIn(lines, body, i, clean)|;
      n <= |HeadingsIn(lines, body, until, clean)|
        && HeadingsIn(lines, body, i, clean) == HeadingsIn(lines, body, until, clean)[..n]
    decreases until
  {
    if until > i { HeadingsGrow(lines, body, i, until - 1, clean); }
  }

  lemma {:induction false} LineOfHeading(
    lines: seq<string>, body: nat, until: nat, clean: string -> string, j: nat) returns (i: nat)
    requires body <= until <= |lines| && j < |HeadingsIn(lines, body, until, clean)|
    ensures body <= i < until && |HeadingsIn(lines, body, i + 1, clean)| == j + 1
    ensures |HeadingsIn(lines, body, i, clean)| == j && IsHeading(lines[i])
    decreases until
  {
    i := until - 1;
    if j < |HeadingsIn(lines, body, until - 1, clean)| { i := LineOfHeading(lines, body, until - 1, clean, j); }
  }
}
