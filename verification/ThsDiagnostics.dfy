/**
 * The bounded diagnostics of a collection and their storage envelope: building a diagnostic normalises its
 * texts, identifiers and code samples; encoding writes its fields as a mapping; parsing checks a mapping and
 * builds from it. JSON text itself, date formats and the redaction patterns are parameters.
 */
module ThsDiagnostics {
  import opened Common

  const SAMPLE_LIMIT := 20
  const BLOCKED_BY_LIMIT := 8
  const MAX_BYTES: nat := 4096

  /** Date formats, the three redactions in their order, what counts as white space and as a control
      character, and the size of an envelope. */
  datatype Env = Env(
    iso: int -> string,
    fromIso: string -> Option<int>,
    redactUrls: string -> string,
    redactSecrets: string -> string,
    redactBearers: string -> string,
    isSpace: char -> bool,
    isControl: char -> bool,
    size: map<Name, Json> -> nat)
  {
    /** A date reads back; a redaction that changes a text leaves its bracketed mark; identifier characters
        are neither white space nor control characters, and a space is white space. */
    ghost predicate Sound() {
      && DatesReadBack()
      && (forall s :: redactUrls(s) == s || '[' in redactUrls(s))
      && (forall s :: redactSecrets(s) == s || '[' in redactSecrets(s))
      && (forall s :: redactBearers(s) == s || '[' in redactBearers(s))
      && (forall c | IsSafe(c) :: !isSpace(c) && !isControl(c))
      && isSpace(' ')
    }

    ghost predicate DatesReadBack() { forall d :: fromIso(iso(d)) == Some(d) }
  }

  // ---------------------------------------------------------------- texts

  predicate IsSafe(c: char) {
    'A' <= c <= 'Z' || 'a' <= c <= 'z' || '0' <= c <= '9' || c == '.' || c == '_' || c == ':' || c == '-'
  }

  function WithoutControls(env: Env, s: string): string {
    if s == "" then "" else [if env.isControl(s[0]) then ' ' else s[0]] + WithoutControls(env, s[1..])
  }

  function Word(env: Env, s: string): (w: string)
    ensures |w| <= |s| && w == s[..|w|]
  {
    if s == "" || env.isSpace(s[0]) then "" else [s[0]] + Word(env, s[1..])
  }

  /** The words of a text with one space between each two. */
  function Words(env: Env, s: string): string
    decreases |s|
  {
    if s == "" then ""
    else if env.isSpace(s[0]) then Words(env, s[1..])
    else
      var w := Word(env, s);
      var rest := if w == "" then "" else Words(env, s[|w|..]);
      if rest == "" then w else w + " " + rest
  }

  function Blank(env: Env, s: string): bool { forall i | 0 <= i < |s| :: env.isSpace(s[i]) }

  function StripRight(env: Env, s: string): string {
    if s != "" && env.isSpace(s[|s| - 1]) then StripRight(env, s[..|s| - 1]) else s
  }

  function Redacted(env: Env, value: string): string {
    env.redactBearers(env.redactSecrets(env.redactUrls(Words(env, WithoutControls(env, value)))))
  }

  /** A text normalised, redacted and cut to a length; none when it is blank. */
  function BoundedText(env: Env, value: string, maximum: nat): Option<string>
    requires maximum > 0
  {
    if Blank(env, value) then None
    else
      var text := Redacted(env, value);
      Some(if |text| > maximum then StripRight(env, text[..maximum - 1]) + "\U{2026}" else text)
  }

  predicate IsIdentifier(s: string) { 1 <= |s| <= 128 && forall i | 0 <= i < |s| :: IsSafe(s[i]) }

  /** An optional identifier, when its bounded text is one. */
  function SafeId(env: Env, value: Option<string>): Option<Option<string>> {
    if value.None? then Some(None)
    else
      var text := BoundedText(env, value.value, 256);
      if text.Some? && IsIdentifier(text.value) then Some(text) else None
  }

  lemma {:induction false} SafeTextIsOneWord(env: Env, s: string)
    requires env.Sound() && forall i | 0 <= i < |s| :: IsSafe(s[i])
    ensures WithoutControls(env, s) == s && Word(env, s) == s
  {
    if s != "" {
      assert IsSafe(s[0]);
      SafeTextIsOneWord(env, s[1..]);
    }
  }

  lemma SafeTextIsNormal(env: Env, s: string)
    requires env.Sound() && IsIdentifier(s)
    ensures Words(env, WithoutControls(env, s)) == s && !Blank(env, s)
  {
    SafeTextIsOneWord(env, s);
    assert IsSafe(s[0]);
    assert s[|s|..] == "";
  }

  /** An accepted identifier's text was not redacted, so redaction leaves it as it is. */
  lemma IdentifierWasNotRedacted(env: Env, value: string)
    requires env.Sound() && IsIdentifier(Redacted(env, value))
    ensures Redacted(env, value) == Words(env, WithoutControls(env, value))
    ensures Redacted(env, Redacted(env, value)) == Redacted(env, value)
  {
    var text := Redacted(env, value);
    assert '[' !in text;
    SafeTextIsNormal(env, text);
  }

  /** Identifiers are fixed points: an accepted one is accepted again as it is. */
  lemma SafeIdIsStable(env: Env, value: Option<string>)
    requires env.Sound() && SafeId(env, value).Some?
    ensures SafeId(env, SafeId(env, value).value) == SafeId(env, value)
  {
    if value.Some? {
      var text := BoundedText(env, value.value, 256).value;
      var full := Redacted(env, value.value);
      assert |full| > 256 ==> '\U{2026}' in text;
      assert forall c | c in text :: IsSafe(c);
      IdentifierWasNotRedacted(env, value.value);
      SafeTextIsNormal(env, text);
    }
  }

  // ---------------------------------------------------------------- code samples

  ghost predicate Increasing(s: seq<string>) { |s| <= 1 || (Less(s[0], s[1]) && Increasing(s[1..])) }

  /** Into an increasing list, once. */
  function InsertOnce(x: string, s: seq<string>): seq<string> {
    if s == [] || Less(x, s[0]) then [x] + s
    else if x == s[0] then s
    else [s[0]] + InsertOnce(x, s[1..])
  }

  function SortedSet(codes: seq<string>): seq<string> {
    if codes == [] then [] else InsertOnce(codes[0], SortedSet(codes[1..]))
  }

  lemma {:induction false} InsertKeepsIncreasing(x: string, s: seq<string>)
    requires Increasing(s)
    ensures var r := InsertOnce(x, s);
      Increasing(r) && r != [] && (r[0] == x || (s != [] && r[0] == s[0])) && forall y :: y in r <==> y == x || y in s
  {
    if s != [] && !Less(x, s[0]) && x != s[0] {
      LessIsTotal(x, s[0]);
      InsertKeepsIncreasing(x, s[1..]);
      var rest := InsertOnce(x, s[1..]);
      assert ([s[0]] + rest)[1..] == rest;
      assert s == [s[0]] + s[1..];
    } else if s == [] || Less(x, s[0]) {
      assert ([x] + s)[1..] == s;
    }
  }

  lemma {:induction false} PrefixIncreases(s: seq<string>, n: nat)
    requires Increasing(s) && n <= |s|
    ensures Increasing(s[..n])
  {
    if n > 1 {
      PrefixIncreases(s[1..], n - 1);
      assert s[..n][1..] == s[1..][..n - 1];
    }
  }

  lemma {:induction false} SortedSetIncreases(codes: seq<string>)
    ensures Increasing(SortedSet(codes)) && forall y :: y in SortedSet(codes) <==> y in codes
  {
    if codes != [] {
      SortedSetIncreases(codes[1..]);
      InsertKeepsIncreasing(codes[0], SortedSet(codes[1..]));
    }
  }

  lemma {:induction false} IncreasingIsSorted(s: seq<string>)
    requires Increasing(s)
    ensures SortedSet(s) == s
  {
    if s != [] {
      IncreasingIsSorted(s[1..]);
      assert s == [s[0]] + s[1..];
    }
  }

  /** Every code as an identifier, or none when one is not. */
  function SafeCodes(env: Env, values: seq<string>): Option<seq<string>> {
    if values == [] then Some([])
    else
      var first, rest := SafeId(env, Some(values[0])), SafeCodes(env, values[1..]);
      if first.Some? && first.value.Some? && rest.Some? then Some([first.value.value] + rest.value) else None
  }

  function CodeSample(env: Env, values: seq<string>): Option<seq<string>> {
    var codes := SafeCodes(env, values);
    if codes.None? then None
    else
      var sorted := SortedSet(codes.value);
      Some(if |sorted| <= SAMPLE_LIMIT then sorted else sorted[..SAMPLE_LIMIT])
  }

  ghost predicate StableCodes(env: Env, codes: seq<string>) {
    forall c | c in codes :: SafeId(env, Some(c)) == Some(Some(c))
  }

  lemma {:induction false} SafeCodesAreStable(env: Env, values: seq<string>)
    requires env.Sound() && SafeCodes(env, values).Some?
    ensures StableCodes(env, SafeCodes(env, values).value)
  {
    if values != [] {
      SafeCodesAreStable(env, values[1..]);
      SafeIdIsStable(env, Some(values[0]));
    }
  }

  lemma {:induction false} StableCodesAreKept(env: Env, codes: seq<string>)
    requires StableCodes(env, codes)
    ensures SafeCodes(env, codes) == Some(codes)
  {
    if codes != [] {
      assert codes[0] in codes && codes == [codes[0]] + codes[1..];
      StableCodesAreKept(env, codes[1..]);
    }
  }

  /** A sample is a fixed point, and within the limit. */
  lemma CodeSampleIsStable(env: Env, values: seq<string>)
    requires env.Sound() && CodeSample(env, values).Some?
    ensures |CodeSample(env, values).value| <= SAMPLE_LIMIT
    ensures CodeSample(env, CodeSample(env, values).value) == CodeSample(env, values)
  {
    var codes := SafeCodes(env, values).value;
    SafeCodesAreStable(env, values);
    SortedSetIncreases(codes);
    var sample := CodeSample(env, values).value;
    assert forall c | c in sample :: c in SortedSet(codes);
    PrefixIncreases(SortedSet(codes), |sample|);
    StableCodesAreKept(env, sample);
    IncreasingIsSorted(sample);
  }

  // ---------------------------------------------------------------- diagnostics

  datatype Reason =
    | LiveValuesMissing
    | DailySnapshotInsufficient
    | CatalogRevisionCollision
    | DependencyInsufficient
    | DependencyRevisionMismatch

  datatype BlockedBy = BlockedBy(
    dataset: string, status: string, reason: Option<Reason>, date: Option<int>, catalog: Option<string>)

  datatype Counts = Counts(
    expected: Option<int>, observed: Option<int>, usable: Option<int>, rankable: Option<int>, bars: Option<int>)

  datatype Sample = Sample(count: Option<int>, codes: seq<string>)

  datatype Diagnostic = Diagnostic(
    reason: Reason,
    message: string,
    stage: string,
    date: int,
    retryable: bool,
    capability: Option<string>,
    catalog: Option<string>,
    counts: Counts,
    live: Sample,
    ranking: Sample,
    existing: Option<string>,
    observed: Option<string>,
    blockedBy: seq<BlockedBy>)

  function BuildBlockedBy(env: Env, raw: BlockedBy): Option<BlockedBy> {
    var dataset, status, catalog :=
      BoundedText(env, raw.dataset, 64), BoundedText(env, raw.status, 64), SafeId(env, raw.catalog);
    if dataset.Some? && status.Some? && catalog.Some?
    then Some(BlockedBy(dataset.value, status.value, raw.reason, raw.date, catalog.value))
    else None
  }

  predicate IsCount(n: Option<int>) { n.Some? ==> n.value >= 0 }

  predicate AreCounts(c: Counts) {
    IsCount(c.expected) && IsCount(c.observed) && IsCount(c.usable) && IsCount(c.rankable) && IsCount(c.bars)
  }

  /** A sample's count is given, or is that of its distinct codes when there are any; it is not below the
      codes kept. */
  function BuildSample(env: Env, raw: Sample): Option<Sample> {
    var codes := CodeSample(env, raw.codes);
    var count := if raw.count.None? && raw.codes != [] then Some(|set c | c in raw.codes|) else raw.count;
    if codes.Some? && IsCount(count) && (count.Some? ==> count.value >= |codes.value|) then
      Some(Sample(count, codes.value))
    else None
  }

  /** The diagnostic of raw values, whose blocked-by entries are built already. */
  function Build(env: Env, raw: Diagnostic): Option<Diagnostic> {
    var message, stage := BoundedText(env, raw.message, 500), BoundedText(env, raw.stage, 64);
    var capability, catalog := SafeId(env, raw.capability), SafeId(env, raw.catalog);
    var existing, observed := SafeId(env, raw.existing), SafeId(env, raw.observed);
    var live, ranking := BuildSample(env, raw.live), BuildSample(env, raw.ranking);
    if && message.Some? && stage.Some? && capability.Some? && catalog.Some? && existing.Some? && observed.Some?
       && AreCounts(raw.counts) && live.Some? && ranking.Some?
    then Some(Diagnostic(
      raw.reason, message.value, stage.value, raw.date, raw.retryable, capability.value, catalog.value, raw.counts,
      live.value, ranking.value, existing.value, observed.value,
      if |raw.blockedBy| <= BLOCKED_BY_LIMIT then raw.blockedBy else raw.blockedBy[..BLOCKED_BY_LIMIT]))
    else None
  }

  lemma BuildSampleIsStable(env: Env, raw: Sample)
    requires env.Sound() && BuildSample(env, raw).Some?
    ensures |BuildSample(env, raw).value.codes| <= SAMPLE_LIMIT
    ensures BuildSample(env, BuildSample(env, raw).value) == BuildSample(env, raw)
  {
    CodeSampleIsStable(env, raw.codes);
  }

  // ---------------------------------------------------------------- the mapping

  datatype Name =
    | ReasonCode | MessageText | FailureStage | ExactDate | RetryableFlag | CapabilityRevision | CatalogRevision
    | ExpectedCount | ObservedCount | UsableCount | RankableCount | BarCount
    | MissingLiveCount | MissingLiveCodes | MissingRankingCount | MissingRankingCodes
    | ExistingChecksum | ObservedChecksum | BlockedByList
    | DatasetName | StatusName
    | Unsupported(name: string)

  datatype Json =
    | Null
    | Bool(flag: bool)
    | Number(number: int)
    | Text(text: string)
    | Code(reason: Reason)
    | List(items: seq<Json>)
    | Object(fields: map<Name, Json>)

  function TextOf(s: Option<string>): Option<Json> { if s.Some? then Some(Text(s.value)) else None }

  function NumberOf(n: Option<int>): Option<Json> { if n.Some? then Some(Number(n.value)) else None }

  function Texts(codes: seq<string>): (r: seq<Json>)
    ensures |r| == |codes| && forall i | 0 <= i < |codes| :: r[i] == Text(codes[i])
  {
    seq(|codes|, i requires 0 <= i < |codes| => Text(codes[i]))
  }

  const BLOCKED_FIELDS: set<Name> := {DatasetName, StatusName, ReasonCode, ExactDate, CatalogRevision}

  const FIELDS: set<Name> := {
    ReasonCode, MessageText, FailureStage, ExactDate, RetryableFlag, CapabilityRevision, CatalogRevision,
    ExpectedCount, ObservedCount, UsableCount, RankableCount, BarCount,
    MissingLiveCount, MissingLiveCodes, MissingRankingCount, MissingRankingCodes,
    ExistingChecksum, ObservedChecksum, BlockedByList}

  /** What a blocked-by entry writes under a name: nothing for a value it does not have. */
  function BlockedField(env: Env, b: BlockedBy, name: Name): Option<Json> {
    match name
    case DatasetName => Some(Text(b.dataset))
    case StatusName => Some(Text(b.status))
    case ReasonCode => if b.reason.Some? then Some(Code(b.reason.value)) else None
    case ExactDate => if b.date.Some? then Some(Text(env.iso(b.date.value))) else None
    case CatalogRevision => TextOf(b.catalog)
    case _ => None
  }

  function BlockedAsDict(env: Env, b: BlockedBy): map<Name, Json> {
    map n | n in BLOCKED_FIELDS && BlockedField(env, b, n).Some? :: BlockedField(env, b, n).value
  }

  function BlockedList(env: Env, list: seq<BlockedBy>): (r: seq<Json>)
    ensures |r| == |list| && forall i | 0 <= i < |list| :: r[i] == Object(BlockedAsDict(env, list[i]))
  {
    seq(|list|, i requires 0 <= i < |list| => Object(BlockedAsDict(env, list[i])))
  }

  function Field(env: Env, d: Diagnostic, name: Name): Option<Json> {
    match name
    case ReasonCode => Some(Code(d.reason))
    case MessageText => Some(Text(d.message))
    case FailureStage => Some(Text(d.stage))
    case ExactDate => Some(Text(env.iso(d.date)))
    case RetryableFlag => Some(Bool(d.retryable))
    case CapabilityRevision => TextOf(d.capability)
    case CatalogRevision => TextOf(d.catalog)
    case ExpectedCount => NumberOf(d.counts.expected)
    case ObservedCount => NumberOf(d.counts.observed)
    case UsableCount => NumberOf(d.counts.usable)
    case RankableCount => NumberOf(d.counts.rankable)
    case BarCount => NumberOf(d.counts.bars)
    case MissingLiveCount => NumberOf(d.live.count)
    case MissingLiveCodes => if d.live.codes != [] then Some(List(Texts(d.live.codes))) else None
    case MissingRankingCount => NumberOf(d.ranking.count)
    case MissingRankingCodes => if d.ranking.codes != [] then Some(List(Texts(d.ranking.codes))) else None
    case ExistingChecksum => TextOf(d.existing)
    case ObservedChecksum => TextOf(d.observed)
    case BlockedByList => if d.blockedBy != [] then Some(List(BlockedList(env, d.blockedBy))) else None
    case _ => None
  }

  function AsDict(env: Env, d: Diagnostic): map<Name, Json> {
    map n | n in FIELDS && Field(env, d, n).Some? :: Field(env, d, n).value
  }

  function Encode(env: Env, d: Diagnostic): Option<map<Name, Json>> {
    if env.size(AsDict(env, d)) > MAX_BYTES then None else Some(AsDict(env, d))
  }

  // ---------------------------------------------------------------- parsing

  /** The value under a name; an absent one reads as null. */
  function Get(raw: map<Name, Json>, name: Name): Json { if name in raw then raw[name] else Null }

  function ReadText(j: Json): Option<Option<string>> {
    match j case Null => Some(None) case Text(s) => Some(Some(s)) case _ => None
  }

  function ReadCount(j: Json): Option<Option<int>> {
    match j case Null => Some(None) case Number(n) => if n >= 0 then Some(Some(n)) else None case _ => None
  }

  function ReadDate(env: Env, j: Json): Option<int> {
    match j case Text(s) => env.fromIso(s) case _ => None
  }

  function ReadCodes(raw: map<Name, Json>, name: Name): Option<seq<string>> {
    if name !in raw then Some([])
    else if !raw[name].List? || |raw[name].items| > SAMPLE_LIMIT then None
    else ReadTexts(raw[name].items)
  }

  function ReadTexts(items: seq<Json>): Option<seq<string>> {
    if items == [] then Some([])
    else
      var rest := ReadTexts(items[1..]);
      if items[0].Text? && rest.Some? then Some([items[0].text] + rest.value) else None
  }

  /** The raw values of a blocked-by entry. */
  function DecodeBlocked(env: Env, j: Json): Option<BlockedBy> {
    if !j.Object? || exists n | n in j.fields :: n !in BLOCKED_FIELDS then None
    else
      var raw := j.fields;
      var dataset, status, catalog := Get(raw, DatasetName), Get(raw, StatusName), ReadText(Get(raw, CatalogRevision));
      var reason, date := Get(raw, ReasonCode), Get(raw, ExactDate);
      if !dataset.Text? || !status.Text? || catalog.None? || !(reason.Null? || reason.Code?) then None
      else if !date.Null? && ReadDate(env, date).None? then None
      else
        Some(BlockedBy(
          dataset.text, status.text, if reason.Code? then Some(reason.reason) else None,
          if date.Null? then None else ReadDate(env, date), catalog.value))
  }

  function ReadBlocked(env: Env, j: Json): Option<BlockedBy> {
    var raw := DecodeBlocked(env, j);
    if raw.Some? then BuildBlockedBy(env, raw.value) else None
  }

  function ReadBlockedList(env: Env, items: seq<Json>): Option<seq<BlockedBy>> {
    if items == [] then Some([])
    else
      var first, rest := ReadBlocked(env, items[0]), ReadBlockedList(env, items[1..]);
      if first.Some? && rest.Some? then Some([first.value] + rest.value) else None
  }

  function ReadBlockedBy(env: Env, j: Json): Option<seq<BlockedBy>> {
    match j
    case Null => Some([])
    case List(items) => if |items| > BLOCKED_BY_LIMIT then None else ReadBlockedList(env, items)
    case _ => None
  }

  function ReadCounts(raw: map<Name, Json>): Option<Counts> {
    var e, o, u :=
      ReadCount(Get(raw, ExpectedCount)), ReadCount(Get(raw, ObservedCount)), ReadCount(Get(raw, UsableCount));
    var r, b := ReadCount(Get(raw, RankableCount)), ReadCount(Get(raw, BarCount));
    if e.Some? && o.Some? && u.Some? && r.Some? && b.Some? then
      Some(Counts(e.value, o.value, u.value, r.value, b.value))
    else None
  }

  function ReadSample(raw: map<Name, Json>, count: Name, codes: Name): Option<Sample> {
    var n, list := ReadCount(Get(raw, count)), ReadCodes(raw, codes);
    if n.Some? && list.Some? then Some(Sample(n.value, list.value)) else None
  }

  datatype Identifiers = Identifiers(
    capability: Option<string>, catalog: Option<string>, existing: Option<string>, observed: Option<string>)

  function ReadIdentifiers(raw: map<Name, Json>): Option<Identifiers> {
    var a, b := ReadText(Get(raw, CapabilityRevision)), ReadText(Get(raw, CatalogRevision));
    var c, d := ReadText(Get(raw, ExistingChecksum)), ReadText(Get(raw, ObservedChecksum));
    if a.Some? && b.Some? && c.Some? && d.Some? then Some(Identifiers(a.value, b.value, c.value, d.value)) else None
  }

  /** The raw values of a mapping, but for its blocked-by entries. */
  function Decode(env: Env, raw: map<Name, Json>): Option<Diagnostic> {
    var reason, retryable := Get(raw, ReasonCode), Get(raw, RetryableFlag);
    var message, stage, date := Get(raw, MessageText), Get(raw, FailureStage), ReadDate(env, Get(raw, ExactDate));
    var ids, counts := ReadIdentifiers(raw), ReadCounts(raw);
    var live, ranking :=
      ReadSample(raw, MissingLiveCount, MissingLiveCodes), ReadSample(raw, MissingRankingCount, MissingRankingCodes);
    if && reason.Code? && retryable.Bool? && message.Text? && stage.Text? && date.Some? && ids.Some? && counts.Some?
       && live.Some? && ranking.Some?
    then Some(Diagnostic(
      reason.reason, message.text, stage.text, date.value, retryable.flag, ids.value.capability, ids.value.catalog,
      counts.value, live.value, ranking.value, ids.value.existing, ids.value.observed, []))
    else None
  }

  /** The diagnostic of a mapping, or none when any of it is unsupported or malformed. */
  function FromMapping(env: Env, raw: map<Name, Json>): Option<Diagnostic> {
    if exists n | n in raw :: n !in FIELDS then None
    else
      var plain, blocked := Decode(env, raw), ReadBlockedBy(env, Get(raw, BlockedByList));
      if plain.Some? && blocked.Some? then Build(env, plain.value.(blockedBy := blocked.value)) else None
  }

  /** An envelope over the size limit is not parsed. */
  function Parse(env: Env, raw: map<Name, Json>): Option<Diagnostic> {
    if env.size(raw) > MAX_BYTES then None else FromMapping(env, raw)
  }

  // ---------------------------------------------------------------- the round trip

  /** A free text that bounding leaves as it is. */
  predicate IsFixed(env: Env, s: string, maximum: nat)
    requires maximum > 0
  {
    BoundedText(env, s, maximum) == Some(s)
  }

  predicate EntryIsFixed(env: Env, b: BlockedBy) { IsFixed(env, b.dataset, 64) && IsFixed(env, b.status, 64) }

  predicate EntriesAreFixed(env: Env, list: seq<BlockedBy>) { forall i | 0 <= i < |list| :: EntryIsFixed(env, list[i]) }

  predicate TextsAreFixed(env: Env, d: Diagnostic) {
    IsFixed(env, d.message, 500) && IsFixed(env, d.stage, 64) && EntriesAreFixed(env, d.blockedBy)
  }

  /** Built from raw values, and from entries that were built. */
  ghost predicate IsConstructed(env: Env, d: Diagnostic) {
    exists raw :: Build(env, raw) == Some(d) && EntriesAreConstructed(env, raw.blockedBy)
  }

  ghost predicate EntryIsConstructed(env: Env, b: BlockedBy) { exists raw :: BuildBlockedBy(env, raw) == Some(b) }

  lemma BlockedReads(env: Env, b: BlockedBy, n: Name)
    requires n in BLOCKED_FIELDS
    ensures Get(BlockedAsDict(env, b), n) ==
      if BlockedField(env, b, n).Some? then BlockedField(env, b, n).value else Null
  {
  }

  lemma EntryDecodes(env: Env, b: BlockedBy)
    requires env.DatesReadBack()
    ensures DecodeBlocked(env, Object(BlockedAsDict(env, b))) == Some(b)
  {
    var dict := BlockedAsDict(env, b);
    assert forall n | n in dict :: n in BLOCKED_FIELDS;
    BlockedReads(env, b, DatasetName);
    BlockedReads(env, b, StatusName);
    BlockedReads(env, b, ReasonCode);
    BlockedReads(env, b, ExactDate);
    BlockedReads(env, b, CatalogRevision);
    if b.date.Some? {
      var day := b.date.value;
      assert env.fromIso(env.iso(day)) == Some(day);
    }
  }

  lemma EntryReadsBack(env: Env, b: BlockedBy)
    requires env.Sound() && EntryIsConstructed(env, b)
    ensures ReadBlocked(env, Object(BlockedAsDict(env, b))) == Some(b) <==> EntryIsFixed(env, b)
  {
    var raw :| BuildBlockedBy(env, raw) == Some(b);
    SafeIdIsStable(env, raw.catalog);
    EntryDecodes(env, b);
  }

  lemma {:induction false} TextsReadBack(codes: seq<string>)
    ensures ReadTexts(Texts(codes)) == Some(codes)
  {
    if codes != [] {
      TextsReadBack(codes[1..]);
      assert Texts(codes)[1..] == Texts(codes[1..]);
      assert codes == [codes[0]] + codes[1..];
    }
  }

  /** A list is read as given exactly when each of its items is. */
  lemma {:induction false} ListIsRead(env: Env, items: seq<Json>, list: seq<BlockedBy>)
    requires |items| == |list|
    ensures ReadBlockedList(env, items) == Some(list) <==>
      forall i | 0 <= i < |list| :: ReadBlocked(env, items[i]) == Some(list[i])
  {
    if list != [] {
      var first, rest := ReadBlocked(env, items[0]), ReadBlockedList(env, items[1..]);
      ListIsRead(env, items[1..], list[1..]);
      if first.Some? && rest.Some? { SameFirstAndRest(first.value, rest.value, list); }
      forall i | 0 < i < |list| ensures items[1..][i - 1] == items[i] && list[1..][i - 1] == list[i] {}
    }
  }

  lemma SameFirstAndRest(first: BlockedBy, rest: seq<BlockedBy>, list: seq<BlockedBy>)
    requires list != []
    ensures [first] + rest == list <==> first == list[0] && rest == list[1..]
  {
    if [first] + rest == list { assert rest == ([first] + rest)[1..]; }
    if first == list[0] && rest == list[1..] { assert list == [list[0]] + list[1..]; }
  }

  lemma ListReadsBack(env: Env, list: seq<BlockedBy>)
    requires env.Sound() && EntriesAreConstructed(env, list)
    ensures ReadBlockedList(env, BlockedList(env, list)) == Some(list) <==> EntriesAreFixed(env, list)
  {
    var items := BlockedList(env, list);
    ListIsRead(env, items, list);
    forall i | 0 <= i < |list| ensures ReadBlocked(env, items[i]) == Some(list[i]) <==> EntryIsFixed(env, list[i]) {
      EntryReadsBack(env, list[i]);
    }
  }

  lemma DictReads(env: Env, d: Diagnostic, n: Name)
    requires n in FIELDS
    ensures n in AsDict(env, d) <==> Field(env, d, n).Some?
    ensures Get(AsDict(env, d), n) == if Field(env, d, n).Some? then Field(env, d, n).value else Null
  {
  }

  lemma CountsReadBack(env: Env, d: Diagnostic)
    requires AreCounts(d.counts)
    ensures ReadCounts(AsDict(env, d)) == Some(d.counts)
  {
    DictReads(env, d, ExpectedCount);
    DictReads(env, d, ObservedCount);
    DictReads(env, d, UsableCount);
    DictReads(env, d, RankableCount);
    DictReads(env, d, BarCount);
  }

  lemma IdentifiersReadBack(env: Env, d: Diagnostic)
    ensures ReadIdentifiers(AsDict(env, d)) == Some(Identifiers(d.capability, d.catalog, d.existing, d.observed))
  {
    DictReads(env, d, CapabilityRevision);
    DictReads(env, d, CatalogRevision);
    DictReads(env, d, ExistingChecksum);
    DictReads(env, d, ObservedChecksum);
  }

  lemma SampleReadsBack(raw: map<Name, Json>, count: Name, codes: Name, s: Sample)
    requires IsCount(s.count) && |s.codes| <= SAMPLE_LIMIT
    requires Get(raw, count) == if s.count.Some? then Number(s.count.value) else Null
    requires codes in raw <==> s.codes != []
    requires codes in raw ==> raw[codes] == List(Texts(s.codes))
    ensures ReadSample(raw, count, codes) == Some(s)
  {
    TextsReadBack(s.codes);
  }

  lemma SamplesReadBack(env: Env, d: Diagnostic)
    requires IsCount(d.live.count) && IsCount(d.ranking.count)
    requires |d.live.codes| <= SAMPLE_LIMIT && |d.ranking.codes| <= SAMPLE_LIMIT
    ensures ReadSample(AsDict(env, d), MissingLiveCount, MissingLiveCodes) == Some(d.live)
    ensures ReadSample(AsDict(env, d), MissingRankingCount, MissingRankingCodes) == Some(d.ranking)
  {
    DictReads(env, d, MissingLiveCount);
    DictReads(env, d, MissingLiveCodes);
    DictReads(env, d, MissingRankingCount);
    DictReads(env, d, MissingRankingCodes);
    SampleReadsBack(AsDict(env, d), MissingLiveCount, MissingLiveCodes, d.live);
    SampleReadsBack(AsDict(env, d), MissingRankingCount, MissingRankingCodes, d.ranking);
  }

  ghost predicate WithinBounds(d: Diagnostic) {
    && AreCounts(d.counts) && IsCount(d.live.count) && IsCount(d.ranking.count)
    && |d.live.codes| <= SAMPLE_LIMIT && |d.ranking.codes| <= SAMPLE_LIMIT
  }

  lemma DiagnosticDecodes(env: Env, d: Diagnostic)
    requires env.DatesReadBack() && WithinBounds(d)
    ensures Decode(env, AsDict(env, d)) == Some(d.(blockedBy := []))
  {
    CountsReadBack(env, d);
    IdentifiersReadBack(env, d);
    SamplesReadBack(env, d);
    DictReads(env, d, ReasonCode);
    DictReads(env, d, RetryableFlag);
    DictReads(env, d, MessageText);
    DictReads(env, d, FailureStage);
    DictReads(env, d, ExactDate);
  }

  ghost predicate EntriesAreConstructed(env: Env, list: seq<BlockedBy>) {
    forall i | 0 <= i < |list| :: EntryIsConstructed(env, list[i])
  }

  lemma BlockedByIsWritten(env: Env, d: Diagnostic)
    ensures Get(AsDict(env, d), BlockedByList) ==
      if d.blockedBy == [] then Null else List(BlockedList(env, d.blockedBy))
  {
    DictReads(env, d, BlockedByList);
  }

  lemma BlockedByReadsBack(env: Env, list: seq<BlockedBy>)
    requires env.Sound() && |list| <= BLOCKED_BY_LIMIT && EntriesAreConstructed(env, list)
    ensures ReadBlockedBy(env, if list == [] then Null else List(BlockedList(env, list))) == Some(list) <==>
      EntriesAreFixed(env, list)
  {
    ListReadsBack(env, list);
  }

  /** Building a constructed diagnostic again keeps everything exactly when it keeps the two free texts. */
  lemma BuildKeepsConstructed(env: Env, raw: Diagnostic, d: Diagnostic)
    requires env.Sound() && Build(env, raw) == Some(d)
    ensures |d.blockedBy| <= BLOCKED_BY_LIMIT && WithinBounds(d)
    ensures Build(env, d) == Some(d) <==> IsFixed(env, d.message, 500) && IsFixed(env, d.stage, 64)
  {
    SafeIdIsStable(env, raw.capability);
    SafeIdIsStable(env, raw.catalog);
    SafeIdIsStable(env, raw.existing);
    SafeIdIsStable(env, raw.observed);
    BuildSampleIsStable(env, raw.live);
    BuildSampleIsStable(env, raw.ranking);
  }

  /** What parsing an encoded diagnostic builds from: its own values, with the entries as they are read. */
  lemma FromMappingBuilds(env: Env, d: Diagnostic, blocked: Option<seq<BlockedBy>>)
    requires env.DatesReadBack() && WithinBounds(d) && blocked == ReadBlockedBy(env, Get(AsDict(env, d), BlockedByList))
    ensures FromMapping(env, AsDict(env, d)) ==
      if blocked.Some? then Build(env, d.(blockedBy := blocked.value)) else None
  {
    DiagnosticDecodes(env, d);
    if blocked.Some? { assert d.(blockedBy := []).(blockedBy := blocked.value) == d.(blockedBy := blocked.value); }
  }

  /** Building differs by its entries alone, when they are within the limit. */
  lemma BuildReplaces(env: Env, d: Diagnostic, list: seq<BlockedBy>)
    requires |list| <= BLOCKED_BY_LIMIT && |d.blockedBy| <= BLOCKED_BY_LIMIT
    ensures Build(env, d.(blockedBy := list)) == Some(d) <==> Build(env, d) == Some(d) && list == d.blockedBy
  {
  }

  lemma ParsesBackIffRebuilt(env: Env, d: Diagnostic)
    requires env.DatesReadBack() && WithinBounds(d) && |d.blockedBy| <= BLOCKED_BY_LIMIT
    ensures FromMapping(env, AsDict(env, d)) == Some(d) <==>
      Build(env, d) == Some(d) && ReadBlockedBy(env, Get(AsDict(env, d), BlockedByList)) == Some(d.blockedBy)
  {
    var written := Get(AsDict(env, d), BlockedByList);
    var blocked := ReadBlockedBy(env, written);
    FromMappingBuilds(env, d, blocked);
    if blocked.Some? {
      BlockedListIsBounded(env, written);
      BuildReplaces(env, d, blocked.value);
    }
  }

  lemma ConstructedEntriesReadBack(env: Env, d: Diagnostic, raw: Diagnostic)
    requires env.Sound() && Build(env, raw) == Some(d) && EntriesAreConstructed(env, raw.blockedBy)
    ensures ReadBlockedBy(env, Get(AsDict(env, d), BlockedByList)) == Some(d.blockedBy) <==>
      EntriesAreFixed(env, d.blockedBy)
  {
    BlockedByIsWritten(env, d);
    BlockedByReadsBack(env, d.blockedBy);
  }

  /** An encoded diagnostic parses back to itself exactly when its free texts are fixed points of bounding:
      everything else always comes back. */
  lemma RoundTripIffTextsAreFixed(env: Env, d: Diagnostic)
    requires env.Sound() && IsConstructed(env, d) && Encode(env, d).Some?
    ensures Parse(env, Encode(env, d).value) == Some(d) <==> TextsAreFixed(env, d)
  {
    var raw :| Build(env, raw) == Some(d) && EntriesAreConstructed(env, raw.blockedBy);
    BuildKeepsConstructed(env, raw, d);
    ParsesBackIffRebuilt(env, d);
    ConstructedEntriesReadBack(env, d, raw);
    assert Parse(env, Encode(env, d).value) == FromMapping(env, AsDict(env, d));
  }

  lemma {:induction false} ListKeepsLength(env: Env, items: seq<Json>)
    requires ReadBlockedList(env, items).Some?
    ensures |ReadBlockedList(env, items).value| == |items|
  {
    if items != [] { ListKeepsLength(env, items[1..]); }
  }

  lemma BlockedListIsBounded(env: Env, j: Json)
    requires ReadBlockedBy(env, j).Some?
    ensures |ReadBlockedBy(env, j).value| <= BLOCKED_BY_LIMIT
  {
    if j.List? { ListKeepsLength(env, j.items); }
  }
}
