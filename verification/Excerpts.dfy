/**
 * The knowledge index of Markdown sources and reading a citation back: the chunk rows of every source, and
 * the excerpt of a citation from the file as it is now. Files are their bytes, `Text` says how bytes split
 * into lines, and the digests are functions assumed to have no collisions.
 */
module Excerpts {
  import opened Common
  import opened Chunker

  type Bytes = seq<bv8>

  datatype Digest = Digest(value: nat)

  datatype Key = Key(layer: string, ref: string)

  datatype Citation = Citation(key: Key, lineStart: nat, lineEnd: nat, content: Digest)

  datatype Reader = Reader(
    split: Bytes -> seq<string>,
    isMapping: seq<string> -> bool,
    clean: string -> string,
    ofFile: Bytes -> Digest,
    ofText: string -> Digest,
    ofCitation: Citation -> Digest)
  {
    ghost predicate NoCollisions() {
      && (forall a, b | ofFile(a) == ofFile(b) :: a == b)
      && (forall a, b | ofText(a) == ofText(b) :: a == b)
      && (forall a, b | ofCitation(a) == ofCitation(b) :: a == b)
    }
  }

  datatype Source = Source(key: Key, raw: Bytes)

  datatype Row = Row(id: Digest, citation: Citation, headingPath: seq<string>, content: string)

  datatype Index = Index(documents: map<Key, Digest>, rows: seq<Row>)

  datatype Refusal = NoSources | Refused(key: Key, reason: FrontMatterError) | DuplicateCitation(id: Digest) | NoChunks

  function RowOf(reader: Reader, key: Key, c: Chunk): Row {
    var citation := Citation(key, c.lineStart, c.lineEnd, reader.ofText(c.content));
    Row(reader.ofCitation(citation), citation, c.headingPath, c.content)
  }

  function RowsOf(reader: Reader, key: Key, chunks: seq<Chunk>): (r: seq<Row>)
    ensures |r| == |chunks|
    ensures forall i | 0 <= i < |chunks| :: r[i] == RowOf(reader, key, chunks[i])
  {
    seq(|chunks|, i requires 0 <= i < |chunks| => RowOf(reader, key, chunks[i]))
  }

  // ---------------------------------------------------------------- building

  predicate Accepted(reader: Reader, source: Source) { BodyStart(reader.split(source.raw), reader.isMapping).Ok? }

  /** These are the chunks of a source whose front matter is accepted. */
  ghost predicate ChunksOf(reader: Reader, source: Source, chunks: seq<Chunk>) {
    var lines := reader.split(source.raw);
    var body := BodyStart(lines, reader.isMapping);
    body.Ok? && ChunksOfBody(lines, body.value, reader.clean, chunks)
  }

  ghost predicate DistinctKeys(sources: seq<Source>) {
    forall i, j | 0 <= i < j < |sources| :: sources[i].key != sources[j].key
  }

  ghost predicate AllChunks(reader: Reader, sources: seq<Source>, parsed: seq<seq<Chunk>>) {
    |parsed| == |sources| && forall i | 0 <= i < |sources| :: ChunksOf(reader, sources[i], parsed[i])
  }

  /** The rows of all sources, one source after another. */
  ghost function AllRows(reader: Reader, sources: seq<Source>, parsed: seq<seq<Chunk>>): seq<Row>
    requires |parsed| == |sources|
  {
    if sources == [] then []
    else
      var n := |sources| - 1;
      AllRows(reader, sources[..n], parsed[..n]) + RowsOf(reader, sources[n].key, parsed[n])
  }

  ghost predicate DistinctIds(rows: seq<Row>) {
    forall i, j | 0 <= i < j < |rows| :: rows[i].id != rows[j].id
  }

  function Ids(rows: seq<Row>): set<Digest> { set r | r in rows :: r.id }

  /** Each document's digest is that of its source. */
  ghost predicate DocumentsOf(reader: Reader, sources: seq<Source>, documents: map<Key, Digest>) {
    forall i | 0 <= i < |sources| ::
      sources[i].key in documents && documents[sources[i].key] == reader.ofFile(sources[i].raw)
  }

  /** One source's rows after those before; stops at an id already there. */
  method AddRows(
    reader: Reader, key: Key, chunks: seq<Chunk>, before: seq<Row>) returns (rows: seq<Row>, duplicate: Option<Digest>)
    requires DistinctIds(before)
    ensures duplicate.None? ==> rows == before + RowsOf(reader, key, chunks) && DistinctIds(rows)
    ensures duplicate.Some? ==> !DistinctIds(before + RowsOf(reader, key, chunks))
  {
    rows, duplicate := before, None;
    var seen := Ids(before);
    ghost var own := RowsOf(reader, key, chunks);
    for k := 0 to |chunks|
      invariant rows == before + own[..k] && seen == Ids(rows) && DistinctIds(rows)
    {
      var row := RowOf(reader, key, chunks[k]);
      assert own[..k + 1] == own[..k] + [row];
      if row.id in seen {
        RepeatedId(rows, row, own[k + 1..]);
        assert before + own == rows + [row] + own[k + 1..];
        return rows, Some(row.id);
      }
      IdsOfMore(rows, row);
      rows := rows + [row];
      seen := seen + {row.id};
    }
    assert own[..|chunks|] == own;
  }

  lemma RepeatedId(rows: seq<Row>, row: Row, more: seq<Row>)
    requires row.id in Ids(rows)
    ensures !DistinctIds(rows + [row] + more)
  {
    var all := rows + [row] + more;
    var r :| r in rows && r.id == row.id;
    var i :| 0 <= i < |rows| && rows[i] == r;
    assert all[i].id == all[|rows|].id;
  }

  lemma IdsOfMore(rows: seq<Row>, row: Row)
    ensures Ids(rows + [row]) == Ids(rows) + {row.id}
    ensures DistinctIds(rows) && row.id !in Ids(rows) ==> DistinctIds(rows + [row])
  {
  }

  /** The rows of the sources' chunks so far, with distinct ids, and the sources' digests. */
  ghost predicate Gathered(reader: Reader, sources: seq<Source>, parsed: seq<seq<Chunk>>, index: Index) {
    && AllChunks(reader, sources, parsed) && index.rows == AllRows(reader, sources, parsed)
    && DistinctIds(index.rows) && DocumentsOf(reader, sources, index.documents)
  }

  /** The index holds exactly the rows of the sources' chunks, in their order, with distinct ids, and the
      sources' digests. */
  ghost predicate Built(reader: Reader, sources: seq<Source>, parsed: seq<seq<Chunk>>, index: Index) {
    && AllChunks(reader, sources, parsed)
    && multiset(index.rows) == multiset(AllRows(reader, sources, parsed))
    && Ordered(index.rows) && DistinctIds(index.rows) && DocumentsOf(reader, sources, index.documents)
  }

  // ---------------------------------------------------------------- the order of rows

  /** By layer, reference, first and last line, and citation id. */
  predicate Before(a: Row, b: Row) {
    var c, d := a.citation, b.citation;
    if c.key.layer != d.key.layer then Less(c.key.layer, d.key.layer)
    else if c.key.ref != d.key.ref then Less(c.key.ref, d.key.ref)
    else if c.lineStart != d.lineStart then c.lineStart < d.lineStart
    else if c.lineEnd != d.lineEnd then c.lineEnd < d.lineEnd
    else a.id.value < b.id.value
  }

  lemma BeforeIsTotal(a: Row, b: Row)
    ensures Before(a, b) || Before(b, a) || a.id == b.id
    ensures !(Before(a, b) && Before(b, a))
  {
    LessIsTotal(a.citation.key.layer, b.citation.key.layer);
    LessIsTotal(a.citation.key.ref, b.citation.key.ref);
    LessIsAsymmetric(a.citation.key.layer, b.citation.key.layer);
    LessIsAsymmetric(a.citation.key.ref, b.citation.key.ref);
  }

  lemma BeforeIsTransitive(a: Row, b: Row, c: Row)
    requires Before(a, b) && Before(b, c)
    ensures Before(a, c)
  {
    var i, j, k := a.citation.key, b.citation.key, c.citation.key;
    if i.layer != j.layer && j.layer != k.layer { LessIsTransitive(i.layer, j.layer, k.layer); }
    if i.ref != j.ref && j.ref != k.ref && Less(i.ref, j.ref) && Less(j.ref, k.ref) {
      LessIsTransitive(i.ref, j.ref, k.ref);
    }
    LessIsAsymmetric(i.layer, j.layer);
    LessIsAsymmetric(i.ref, j.ref);
  }

  ghost predicate Ordered(rows: seq<Row>) { |rows| <= 1 || (Before(rows[0], rows[1]) && Ordered(rows[1..])) }

  lemma {:induction false} FirstIsBeforeAll(rows: seq<Row>, r: Row)
    requires Ordered(rows) && rows != [] && r in rows[1..]
    ensures Before(rows[0], r)
  {
    if r != rows[1] {
      FirstIsBeforeAll(rows[1..], r);
      BeforeIsTransitive(rows[0], rows[1], r);
    }
  }

  function InsertRow(row: Row, rows: seq<Row>): seq<Row> {
    if rows == [] || Before(row, rows[0]) then [row] + rows else [rows[0]] + InsertRow(row, rows[1..])
  }

  function SortRows(rows: seq<Row>): seq<Row> { if rows == [] then [] else InsertRow(rows[0], SortRows(rows[1..])) }

  lemma {:induction false} InsertKeepsOrder(row: Row, rows: seq<Row>)
    requires Ordered(rows) && forall r | r in rows :: r.id != row.id
    ensures var s := InsertRow(row, rows);
      Ordered(s) && multiset(s) == multiset(rows) + multiset{row} && s != []
    ensures var s := InsertRow(row, rows); s[0] == row || (rows != [] && s[0] == rows[0])
  {
    if rows == [] || Before(row, rows[0]) {
      assert ([row] + rows)[1..] == rows;
    } else {
      BeforeIsTotal(row, rows[0]);
      InsertKeepsOrder(row, rows[1..]);
      var rest := InsertRow(row, rows[1..]);
      assert ([rows[0]] + rest)[1..] == rest;
      assert rows == [rows[0]] + rows[1..];
    }
  }

  lemma {:induction false} SortedRowsAreOrdered(rows: seq<Row>)
    requires DistinctIds(rows)
    ensures Ordered(SortRows(rows)) && multiset(SortRows(rows)) == multiset(rows)
  {
    if rows != [] {
      var rest := SortRows(rows[1..]);
      SortedRowsAreOrdered(rows[1..]);
      forall r | r in rest ensures r.id != rows[0].id {
        assert r in multiset(rest);
        var i :| 0 <= i < |rows[1..]| && rows[1..][i] == r;
        assert rows[i + 1] == r;
      }
      InsertKeepsOrder(rows[0], rest);
      assert rows == [rows[0]] + rows[1..];
    }
  }

  /** Ordered rows are determined by what they are. */
  lemma {:induction false} OrderedRowsAreUnique(a: seq<Row>, b: seq<Row>)
    requires Ordered(a) && Ordered(b) && forall r :: r in a <==> r in b
    ensures a == b
  {
    if a != [] { assert a[0] in b; }
    if b != [] { assert b[0] in a; }
    if a != [] {
      FirstIsFirst(a, b);
      RestIsSame(a, b);
      OrderedRowsAreUnique(a[1..], b[1..]);
      assert a == [a[0]] + a[1..] && b == [b[0]] + b[1..];
    }
  }

  lemma FirstIsFirst(a: seq<Row>, b: seq<Row>)
    requires Ordered(a) && Ordered(b) && a != [] && b != [] && a[0] in b && b[0] in a
    ensures a[0] == b[0]
  {
    if a[0] != b[0] {
      FirstIsBeforeAll(a, b[0]);
      FirstIsBeforeAll(b, a[0]);
      BeforeIsTotal(a[0], b[0]);
    }
  }

  lemma RestIsSame(a: seq<Row>, b: seq<Row>)
    requires Ordered(a) && Ordered(b) && a != [] && b != [] && a[0] == b[0] && forall r :: r in a <==> r in b
    ensures forall r :: r in a[1..] <==> r in b[1..]
  {
    forall r ensures r in a[1..] <==> r in a && r != a[0] { FirstIsNotInRest(a, r); }
    forall r ensures r in b[1..] <==> r in b && r != b[0] { FirstIsNotInRest(b, r); }
  }

  lemma FirstIsNotInRest(a: seq<Row>, r: Row)
    requires Ordered(a) && a != []
    ensures r in a[1..] <==> r in a && r != a[0]
  {
    if r in a[1..] {
      FirstIsBeforeAll(a, r);
      BeforeIsTotal(a[0], r);
    }
    assert a == [a[0]] + a[1..];
  }

  /** One more source: refused when its front matter is, or when ids collide. */
  method AddSource(
    reader: Reader, index: Index, source: Source, ghost sources: seq<Source>, ghost parsed: seq<seq<Chunk>>)
    returns (result: Result<Index, Refusal>, ghost chunks: seq<Chunk>)
    requires Gathered(reader, sources, parsed, index) && DistinctKeys(sources + [source])
    ensures result.Ok? ==>
      Accepted(reader, source) && Gathered(reader, sources + [source], parsed + [chunks], result.value)
    ensures !Accepted(reader, source) ==>
      result == Error(Refused(source.key, BodyStart(reader.split(source.raw), reader.isMapping).error))
    ensures Accepted(reader, source) && reader.NoCollisions() ==> result.Ok?
    ensures Accepted(reader, source) && result.Error? ==> result.error.DuplicateCitation?
  {
    chunks := [];
    var parse := ParseMarkdown(reader.split(source.raw), reader.isMapping, reader.clean);
    if parse.Error? {
      return Error(Refused(source.key, parse.error)), chunks;
    }
    chunks := parse.value;
    var rows, duplicate := AddRows(reader, source.key, parse.value, index.rows);
    AllRowsGrows(reader, sources, parsed, source, chunks);
    AllChunksGrows(reader, sources, parsed, source, chunks);
    if duplicate.Some? {
      if reader.NoCollisions() {
        RowsAreDistinct(reader, sources + [source], parsed + [chunks]);
        assert false;
      }
      return Error(DuplicateCitation(duplicate.value)), chunks;
    }
    var documents := index.documents[source.key := reader.ofFile(source.raw)];
    DocumentsGrow(reader, sources, source, index.documents);
    result := Ok(Index(documents, rows));
  }

  /** Some source has a body line that is not blank. */
  ghost predicate SomeText(reader: Reader, sources: seq<Source>) {
    exists i :: 0 <= i < |sources| && Accepted(reader, sources[i]) && BodyHasText(reader, sources[i])
  }

  ghost predicate BodyHasText(reader: Reader, source: Source)
    requires Accepted(reader, source)
  {
    var lines := reader.split(source.raw);
    exists i :: BodyStart(lines, reader.isMapping).value <= i < |lines| && !Blank(lines[i])
  }

  /** The index of all sources: refused without sources, at the first front matter that does not parse, when
      there is no text, and otherwise built unless the digests collide. */
  method BuildIndex(
    reader: Reader, sources: seq<Source>) returns (result: Result<Index, Refusal>, ghost parsed: seq<seq<Chunk>>)
    requires DistinctKeys(sources)
    ensures result.Ok? ==> Built(reader, sources, parsed, result.value)
    ensures result == Error(NoSources) <==> sources == []
    ensures result.Error? && result.error.Refused? ==> FirstRefused(reader, sources, result.error)
    ensures result == Error(NoChunks) ==> sources != [] && !SomeText(reader, sources)
    ensures var accepted := sources != [] && forall i | 0 <= i < |sources| :: Accepted(reader, sources[i]);
      reader.NoCollisions() ==> (result.Ok? <==> accepted && SomeText(reader, sources))
  {
    parsed := [];
    if sources == [] {
      return Error(NoSources), parsed;
    }
    var index := Index(map[], []);
    for i := 0 to |sources|
      invariant Gathered(reader, sources[..i], parsed, index)
      invariant forall j | 0 <= j < i :: Accepted(reader, sources[j])
    {
      assert sources[..i + 1] == sources[..i] + [sources[i]];
      ghost var chunks;
      result, chunks := AddSource(reader, index, sources[i], sources[..i], parsed);
      if result.Error? {
        return result, parsed;
      }
      index, parsed := result.value, parsed + [chunks];
    }
    assert sources[..|sources|] == sources;
    RowsIffText(reader, sources, parsed);
    if index.rows == [] {
      return Error(NoChunks), parsed;
    }
    SortedRowsAreOrdered(index.rows);
    SameRowsDistinct(index.rows, SortRows(index.rows));
    result := Ok(index.(rows := SortRows(index.rows)));
  }

  lemma SameRowsDistinct(a: seq<Row>, b: seq<Row>)
    requires DistinctIds(a) && Ordered(b) && multiset(a) == multiset(b)
    ensures DistinctIds(b)
  {
    forall i, j | 0 <= i < j < |b| ensures b[i].id != b[j].id {
      LaterRowDiffers(b, i, j);
      assert b[i] in multiset(a) && b[j] in multiset(a);
    }
  }

  lemma {:induction false} LaterRowDiffers(rows: seq<Row>, i: nat, j: nat)
    requires Ordered(rows) && i < j < |rows|
    ensures rows[i] != rows[j]
  {
    if i == 0 {
      assert rows[j] == rows[1..][j - 1];
      FirstIsBeforeAll(rows, rows[j]);
      BeforeIsTotal(rows[0], rows[j]);
    } else {
      LaterRowDiffers(rows[1..], i - 1, j - 1);
    }
  }

  /** A source has chunks exactly when its body has text. */
  lemma ChunksIffText(reader: Reader, source: Source, chunks: seq<Chunk>)
    requires ChunksOf(reader, source, chunks)
    ensures chunks != [] <==> BodyHasText(reader, source)
  {
    var lines := reader.split(source.raw);
    var body := BodyStart(lines, reader.isMapping).value;
    if chunks != [] {
      var c := chunks[0];
      assert IsChunk(lines, body, reader.clean, c);
      assert !Blank(lines[c.lineStart - 1]);
    }
    if BodyHasText(reader, source) {
      var i :| body <= i < |lines| && !Blank(lines[i]);
      EachTextLineIsInOneChunk(lines, body, reader.clean, chunks, i);
    }
  }

  lemma {:induction false} RowsIffText(reader: Reader, sources: seq<Source>, parsed: seq<seq<Chunk>>)
    requires AllChunks(reader, sources, parsed)
    ensures AllRows(reader, sources, parsed) != [] <==> SomeText(reader, sources)
  {
    if AllRows(reader, sources, parsed) != [] {
      var a, b := RowOrigin(reader, sources, parsed, AllRows(reader, sources, parsed)[0]);
      assert ChunksOf(reader, sources[a], parsed[a]);
      ChunksIffText(reader, sources[a], parsed[a]);
    }
    if SomeText(reader, sources) {
      var i :| 0 <= i < |sources| && Accepted(reader, sources[i]) && BodyHasText(reader, sources[i]);
      assert ChunksOf(reader, sources[i], parsed[i]);
      ChunksIffText(reader, sources[i], parsed[i]);
      RowIsThere(reader, sources, parsed, i, 0);
    }
  }

  /** Every chunk has its row. */
  lemma {:induction false} RowIsThere(reader: Reader, sources: seq<Source>, parsed: seq<seq<Chunk>>, a: nat, b: nat)
    requires |parsed| == |sources| && a < |sources| && b < |parsed[a]|
    ensures RowOf(reader, sources[a].key, parsed[a][b]) in AllRows(reader, sources, parsed)
  {
    var n := |sources| - 1;
    var own := RowsOf(reader, sources[n].key, parsed[n]);
    if a == n {
      assert own[b] in own;
    } else {
      RowIsThere(reader, sources[..n], parsed[..n], a, b);
    }
  }

  /** The rows of an index do not depend on the order in which its sources were found. */
  lemma SourceOrderIsIrrelevant(
    reader: Reader, one: seq<Source>, parsedOne: seq<seq<Chunk>>, a: Index, two: seq<Source>,
    parsedTwo: seq<seq<Chunk>>, b: Index)
    requires Built(reader, one, parsedOne, a) && Built(reader, two, parsedTwo, b)
    requires forall s :: s in one <==> s in two
    ensures a.rows == b.rows
  {
    forall r ensures r in a.rows <==> r in b.rows {
      if r in a.rows { RowIsShared(reader, one, parsedOne, a, two, parsedTwo, b, r); }
      if r in b.rows { RowIsShared(reader, two, parsedTwo, b, one, parsedOne, a, r); }
    }
    OrderedRowsAreUnique(a.rows, b.rows);
  }

  lemma RowIsShared(
    reader: Reader, one: seq<Source>, parsedOne: seq<seq<Chunk>>, a: Index, two: seq<Source>,
    parsedTwo: seq<seq<Chunk>>, b: Index,
    r: Row)
    requires Built(reader, one, parsedOne, a) && Built(reader, two, parsedTwo, b)
    requires r in a.rows && forall s :: s in one ==> s in two
    ensures r in b.rows
  {
    assert r in multiset(a.rows);
    var i, k := RowOrigin(reader, one, parsedOne, r);
    assert one[i] in two;
    var j :| 0 <= j < |two| && two[j] == one[i];
    assert ChunksOf(reader, one[i], parsedOne[i]) && ChunksOf(reader, two[j], parsedTwo[j]);
    var lines := reader.split(one[i].raw);
    ChunksAreUnique(lines, BodyStart(lines, reader.isMapping).value, reader.clean, parsedOne[i], parsedTwo[j]);
    RowIsThere(reader, two, parsedTwo, j, k);
    assert r in multiset(b.rows);
  }

  /** The refusal is that of the first source whose front matter is refused. */
  ghost predicate FirstRefused(reader: Reader, sources: seq<Source>, refusal: Refusal) {
    exists i ::
      && 0 <= i < |sources| && !Accepted(reader, sources[i])
      && refusal == Refused(sources[i].key, BodyStart(reader.split(sources[i].raw), reader.isMapping).error)
      && forall j | 0 <= j < i :: Accepted(reader, sources[j])
  }

  lemma AllChunksGrows(
    reader: Reader, sources: seq<Source>, parsed: seq<seq<Chunk>>, source: Source, chunks: seq<Chunk>)
    requires AllChunks(reader, sources, parsed) && ChunksOf(reader, source, chunks)
    ensures AllChunks(reader, sources + [source], parsed + [chunks])
  {
  }

  lemma DocumentsGrow(reader: Reader, sources: seq<Source>, source: Source, documents: map<Key, Digest>)
    requires DocumentsOf(reader, sources, documents) && DistinctKeys(sources + [source])
    ensures DocumentsOf(reader, sources + [source], documents[source.key := reader.ofFile(source.raw)])
  {
    var all := sources + [source];
    forall i | 0 <= i < |sources| ensures sources[i].key != source.key { assert all[i].key != all[|sources|].key; }
  }

  lemma AllRowsGrows(reader: Reader, sources: seq<Source>, parsed: seq<seq<Chunk>>, source: Source, chunks: seq<Chunk>)
    requires |parsed| == |sources|
    ensures AllRows(reader, sources + [source], parsed + [chunks]) ==
      AllRows(reader, sources, parsed) + RowsOf(reader, source.key, chunks)
  {
    assert (sources + [source])[..|sources|] == sources && (parsed + [chunks])[..|sources|] == parsed;
  }

  // ---------------------------------------------------------------- rows and their sources

  /** Every row comes from a chunk of a source. */
  lemma {:induction false} RowOrigin(
    reader: Reader, sources: seq<Source>, parsed: seq<seq<Chunk>>, r: Row) returns (a: nat, b: nat)
    requires |parsed| == |sources| && r in AllRows(reader, sources, parsed)
    ensures a < |sources| && b < |parsed[a]| && r == RowOf(reader, sources[a].key, parsed[a][b])
  {
    a := |sources| - 1;
    var own := RowsOf(reader, sources[a].key, parsed[a]);
    if r in own {
      b :| 0 <= b < |own| && own[b] == r;
    } else {
      a, b := RowOrigin(reader, sources[..a], parsed[..a], r);
    }
  }

  /** Without collisions no two rows share an id. */
  lemma {:induction false} RowsAreDistinct(reader: Reader, sources: seq<Source>, parsed: seq<seq<Chunk>>)
    requires reader.NoCollisions() && DistinctKeys(sources) && AllChunks(reader, sources, parsed)
    ensures DistinctIds(AllRows(reader, sources, parsed))
  {
    if sources != [] {
      var n := |sources| - 1;
      var front, own := AllRows(reader, sources[..n], parsed[..n]), RowsOf(reader, sources[n].key, parsed[n]);
      RowsAreDistinct(reader, sources[..n], parsed[..n]);
      OwnRowsAreDistinct(reader, sources[n], parsed[n]);
      forall i, j | 0 <= i < |front| && 0 <= j < |own| ensures front[i].id != own[j].id {
        var a, b := RowOrigin(reader, sources[..n], parsed[..n], front[i]);
        assert front[i].citation.key == sources[a].key;
      }
    }
  }

  lemma OwnRowsAreDistinct(reader: Reader, source: Source, chunks: seq<Chunk>)
    requires reader.NoCollisions() && ChunksOf(reader, source, chunks)
    ensures DistinctIds(RowsOf(reader, source.key, chunks))
  {
    var lines := reader.split(source.raw);
    var body := BodyStart(lines, reader.isMapping).value;
    forall i, j | 0 <= i < j < |chunks| ensures chunks[i].lineStart != chunks[j].lineStart {
      RangesIncrease(Chunks(lines, body, reader.clean), Blanks(lines), body, |lines|, chunks, i, j);
    }
  }

  /** Rows stand in the order of their layer, within it of their reference, and within a document of their
      lines: those of a document are in the order of the text. */
  lemma {:induction false} RowsStandInOrder(rows: seq<Row>, i: nat, j: nat)
    requires Ordered(rows) && i < j < |rows|
    ensures
      var a, b := rows[i].citation, rows[j].citation;
      && (a.key.layer == b.key.layer || Less(a.key.layer, b.key.layer))
      && (a.key.layer == b.key.layer ==> a.key.ref == b.key.ref || Less(a.key.ref, b.key.ref))
      && (a.key == b.key ==> a.lineStart <= b.lineStart)
      && (a.key == b.key && a.lineStart == b.lineStart ==> a.lineEnd <= b.lineEnd)
      && (a.key == b.key && a.lineStart == b.lineStart && a.lineEnd == b.lineEnd ==>
            rows[i].id.value < rows[j].id.value)
  {
    if i == 0 {
      assert rows[j] == rows[1..][j - 1];
      FirstIsBeforeAll(rows, rows[j]);
    } else {
      RowsStandInOrder(rows[1..], i - 1, j - 1);
    }
  }

  // ---------------------------------------------------------------- reading a citation back

  datatype Excerpt =
    | Excerpted(content: string, citation: Citation, headingPath: seq<string>)
    | NoMatch
    | Invalid
    | Stale
    | Failed

  function FindRow(rows: seq<Row>, id: Digest): (r: Option<Row>)
    ensures r.Some? ==> r.value in rows && r.value.id == id
    ensures r.None? ==> forall i | 0 <= i < |rows| :: rows[i].id != id
  {
    if rows == [] then None else if rows[0].id == id then Some(rows[0]) else FindRow(rows[1..], id)
  }

  /** The excerpt of a citation id from the files as they are: by reference, with no entry for a file that
      cannot be read. */
  function GetSourceExcerpt(reader: Reader, index: Index, files: map<string, Bytes>, id: Digest): Excerpt {
    var found := FindRow(index.rows, id);
    if found.None? then NoMatch
    else
      var row := found.value;
      var c := row.citation;
      if c.key !in index.documents then Invalid
      else if c.key.ref !in files then Failed
      else if reader.ofFile(files[c.key.ref]) != index.documents[c.key] then Stale
      else
        var lines := reader.split(files[c.key.ref]);
        if c.lineStart < 1 || c.lineEnd < c.lineStart || c.lineEnd > |lines| then Invalid
        else
          var content := Join(lines[c.lineStart - 1..c.lineEnd]);
          if reader.ofText(content) != c.content then Stale
          else Excerpted(content, Citation(c.key, c.lineStart, c.lineEnd, reader.ofText(content)), row.headingPath)
  }

  /** Every row of a built index reads back its own content from an unchanged file, is stale when the file
      has any other bytes, and is never invalid. */
  lemma CitationsReadBack(
    reader: Reader, sources: seq<Source>, parsed: seq<seq<Chunk>>, index: Index, files: map<string, Bytes>, r: Row)
    returns (source: Source)
    requires reader.NoCollisions() && Built(reader, sources, parsed, index) && r in index.rows
    ensures source in sources && source.key == r.citation.key
    ensures GetSourceExcerpt(reader, index, files, r.id) ==
      if source.key.ref !in files then Failed
      else if files[source.key.ref] == source.raw then Excerpted(r.content, r.citation, r.headingPath)
      else Stale
  {
    assert r in multiset(index.rows);
    var a, b := RowOrigin(reader, sources, parsed, r);
    source := sources[a];
    ChunkIsOfSource(reader, source, parsed[a], b);
    ReadsBack(reader, index, files, source, parsed[a][b], FindRow(index.rows, r.id));
    OneRowAnId(index.rows, FindRow(index.rows, r.id).value, r);
  }

  /** Every row of a built index cites the lines of a chunk of its source, with the chunk's text and heading path,
      under the digest of the citation. */
  lemma RowsTellWhatTheyCite(reader: Reader, sources: seq<Source>, parsed: seq<seq<Chunk>>, index: Index, r: Row)
    returns (source: Source, c: Chunk)
    requires Built(reader, sources, parsed, index) && r in index.rows
    ensures source in sources && Accepted(reader, source)
    ensures
      var lines := reader.split(source.raw);
      var body := BodyStart(lines, reader.isMapping).value;
      && body < c.lineStart <= c.lineEnd <= |lines|
      && r.citation == Citation(source.key, c.lineStart, c.lineEnd, reader.ofText(r.content))
      && r.id == reader.ofCitation(r.citation)
      && r.content == Join(lines[c.lineStart - 1..c.lineEnd])
      && r.headingPath == PathAt(lines, body, c.lineStart - 1, reader.clean)
  {
    assert r in multiset(index.rows);
    var a, b := RowOrigin(reader, sources, parsed, r);
    source, c := sources[a], parsed[a][b];
    var lines := reader.split(source.raw);
    var body := BodyStart(lines, reader.isMapping).value;
    assert ChunksOf(reader, source, parsed[a]);
    ChunkIsOfKind(Chunks(lines, body, reader.clean), Blanks(lines), body, |lines|, parsed[a], b);
    assert IsChunk(lines, body, reader.clean, c);
  }

  /** An id that no row has matches nothing. */
  lemma UnknownCitationsMatchNothing(reader: Reader, index: Index, files: map<string, Bytes>, id: Digest)
    ensures GetSourceExcerpt(reader, index, files, id) == NoMatch <==> forall r | r in index.rows :: r.id != id
  {
    var found := FindRow(index.rows, id);
    if found.None? {
      forall r | r in index.rows ensures r.id != id {
        var i :| 0 <= i < |index.rows| && index.rows[i] == r;
      }
    }
  }

  lemma ChunkIsOfSource(reader: Reader, source: Source, chunks: seq<Chunk>, k: nat)
    requires ChunksOf(reader, source, chunks) && k < |chunks|
    ensures RangeHolds(reader, source, chunks[k])
  {
    var lines := reader.split(source.raw);
    var body := BodyStart(lines, reader.isMapping).value;
    ChunkIsOfKind(Chunks(lines, body, reader.clean), Blanks(lines), body, |lines|, chunks, k);
    assert IsChunk(lines, body, reader.clean, chunks[k]);
  }

  /** The chunk's range lies in its source and holds its content. */
  ghost predicate RangeHolds(reader: Reader, source: Source, c: Chunk) {
    var lines := reader.split(source.raw);
    1 <= c.lineStart <= c.lineEnd <= |lines| && c.content == Join(lines[c.lineStart - 1..c.lineEnd])
  }

  /** The excerpt of a chunk's row, once it is found. */
  lemma ReadsBack(reader: Reader, index: Index, files: map<string, Bytes>, source: Source, c: Chunk, found: Option<Row>)
    requires reader.NoCollisions() && RangeHolds(reader, source, c)
    requires source.key in index.documents && index.documents[source.key] == reader.ofFile(source.raw)
    ensures var r := RowOf(reader, source.key, c);
      found == FindRow(index.rows, r.id) && found == Some(r) ==>
        GetSourceExcerpt(reader, index, files, r.id) ==
          if source.key.ref !in files then Failed
          else if files[source.key.ref] == source.raw then Excerpted(r.content, r.citation, r.headingPath)
          else Stale
  {
  }

  lemma OneRowAnId(rows: seq<Row>, q: Row, r: Row)
    requires DistinctIds(rows) && q in rows && r in rows && q.id == r.id
    ensures q == r
  {
  }
}
