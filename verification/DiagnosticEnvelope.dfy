/**
 * What a diagnostic is made of and what its envelope holds: which raw values make one, which codes a sample
 * keeps, what bounding leaves of a text, and under which name each value is written.
 */
module DiagnosticEnvelope {
  import opened Common
  import opened ThsDiagnostics
  import opened DiagnosticTexts

  // ---------------------------------------------------------------- texts

  /** The characters of a text that are not white space. */
  function Letters(env: Env, s: string): string {
    if s == "" then "" else (if env.isSpace(s[0]) then "" else [s[0]]) + Letters(env, s[1..])
  }

  lemma {:induction false} LettersOfBoth(env: Env, a: string, b: string)
    ensures Letters(env, a + b) == Letters(env, a) + Letters(env, b)
  {
    if a == "" {
      assert a + b == b;
    } else {
      LettersOfBoth(env, a[1..], b);
      assert (a + b)[1..] == a[1..] + b;
    }
  }

  /** Normalising changes nothing but white space. */
  lemma {:induction false} WordsKeepLetters(env: Env, s: string)
    requires env.isSpace(' ')
    ensures Letters(env, Words(env, s)) == Letters(env, s)
    decreases |s|
  {
    if s != "" {
      if env.isSpace(s[0]) {
        WordsKeepLetters(env, s[1..]);
      } else {
        var w := Word(env, s);
        var rest := Words(env, s[|w|..]);
        WordsKeepLetters(env, s[|w|..]);
        LettersOfBoth(env, w, s[|w|..]);
        assert s == w + s[|w|..];
        LettersOfJoined(env, w, rest);
      }
    }
  }

  lemma LettersOfJoined(env: Env, a: string, b: string)
    requires env.isSpace(' ')
    ensures Letters(env, a + " " + b) == Letters(env, a) + Letters(env, b)
  {
    LettersOfSpace(env);
    LettersOfBoth(env, a, " ");
    LettersOfBoth(env, a + " ", b);
  }

  lemma LettersOfSpace(env: Env)
    requires env.isSpace(' ')
    ensures Letters(env, " ") == ""
  {
    assert " "[1..] == "";
  }

  /** A text of white space is refused. Any other is redacted in its normal form, and kept when it fits; what does
      not fit is cut behind the last visible character before its limit, and ends with an ellipsis. */
  lemma TextIsBounded(env: Env, s: string, maximum: nat) returns (kept: nat)
    requires maximum > 0
    ensures BoundedText(env, s, maximum).None? <==> forall i | 0 <= i < |s| :: env.isSpace(s[i])
    ensures BoundedText(env, s, maximum).Some? ==>
      var full := env.redactBearers(env.redactSecrets(env.redactUrls(Words(env, WithoutControls(env, s)))));
      if |full| <= maximum then BoundedText(env, s, maximum) == Some(full)
      else
        && kept < maximum && BoundedText(env, s, maximum) == Some(full[..kept] + "\U{2026}")
        && (kept > 0 ==> !env.isSpace(full[kept - 1]))
        && forall i | kept <= i < maximum - 1 :: env.isSpace(full[i])
  {
    var full := Redacted(env, s);
    kept := 0;
    if |full| > maximum {
      kept := |StripRight(env, full[..maximum - 1])|;
      StripRightIsPrefix(env, full[..maximum - 1]);
      assert StripRight(env, full[..maximum - 1]) == full[..maximum - 1][..kept] == full[..kept];
      forall i | kept <= i < maximum - 1 ensures env.isSpace(full[i]) { assert full[..maximum - 1][i] == full[i]; }
    }
  }

  // ---------------------------------------------------------------- samples

  /** The value as an identifier: its bounded text, of one to 128 letters, digits, dots, underscores, colons and
      hyphens. */
  ghost predicate IsCodeOf(env: Env, value: string, code: string) {
    && BoundedText(env, value, 256) == Some(code) && 1 <= |code| <= 128
    && forall c | c in code ::
         'A' <= c <= 'Z' || 'a' <= c <= 'z' || '0' <= c <= '9' || c == '.' || c == '_' || c == ':' || c == '-'
  }

  lemma IdIsCode(env: Env, value: string, code: string)
    ensures SafeId(env, Some(value)) == Some(Some(code)) <==> IsCodeOf(env, value, code)
    ensures SafeId(env, None) == Some(None) && SafeId(env, Some(value)) != Some(None)
  {
    if IsIdentifier(code) {
      forall c | c in code ensures IsSafe(c) {}
    } else if 1 <= |code| <= 128 {
      var i :| 0 <= i < |code| && !IsSafe(code[i]);
      assert code[i] in code;
    }
  }

  /** Each value has its code. */
  ghost predicate AreCodesOf(env: Env, values: seq<string>, codes: seq<string>) {
    |codes| == |values| && forall i | 0 <= i < |values| :: IsCodeOf(env, values[i], codes[i])
  }

  lemma {:induction false} CodesAreOfValues(env: Env, values: seq<string>)
    ensures SafeCodes(env, values).Some? ==> AreCodesOf(env, values, SafeCodes(env, values).value)
    ensures SafeCodes(env, values).None? ==> exists i :: 0 <= i < |values| && HasNoCode(env, values[i])
  {
    if values != [] {
      CodesAreOfValues(env, values[1..]);
      var first, rest := SafeId(env, Some(values[0])), SafeCodes(env, values[1..]);
      if first.Some? && first.value.Some? {
        IdIsCode(env, values[0], first.value.value);
        if rest.Some? {
          var codes := [first.value.value] + rest.value;
          forall i | 0 <= i < |values| ensures IsCodeOf(env, values[i], codes[i]) {
            if i > 0 { assert values[1..][i - 1] == values[i] && IsCodeOf(env, values[1..][i - 1], rest.value[i - 1]); }
          }
        } else {
          var i :| 0 <= i < |values[1..]| && HasNoCode(env, values[1..][i]);
          assert HasNoCode(env, values[i + 1]);
        }
      } else {
        forall code ensures !IsCodeOf(env, values[0], code) { IdIsCode(env, values[0], code); }
        assert HasNoCode(env, values[0]);
      }
    }
  }

  ghost predicate HasNoCode(env: Env, value: string) { forall code :: !IsCodeOf(env, value, code) }

  lemma {:induction false} FirstIsLeast(s: seq<string>, i: nat)
    requires Increasing(s) && 0 < i < |s|
    ensures Less(s[0], s[i])
    decreases i
  {
    if i > 1 {
      FirstIsLeast(s[1..], i - 1);
      LessIsTransitive(s[0], s[1], s[1..][i - 1]);
    }
  }

  lemma {:induction false} IncreasingRises(s: seq<string>, i: nat, j: nat)
    requires Increasing(s) && i < j < |s|
    ensures Less(s[i], s[j])
  {
    if i == 0 { FirstIsLeast(s, j); } else { IncreasingRises(s[1..], i - 1, j - 1); }
  }

  /** A sample is refused when some value has no code. Otherwise it holds codes of the values in increasing order,
      at most 20: all of them, or 20 such that every other is greater than each of them. */
  lemma SampleKeepsLeast(env: Env, values: seq<string>, codes: seq<string>)
    requires SafeCodes(env, values) == Some(codes)
    ensures AreCodesOf(env, values, codes)
    ensures
      var sample := CodeSample(env, values);
      && sample.Some? && |sample.value| <= 20
      && (forall i, j | 0 <= i < j < |sample.value| :: Less(sample.value[i], sample.value[j]))
      && (forall c | c in sample.value :: c in codes)
      && (forall c | c in codes && c !in sample.value ::
            |sample.value| == 20 && forall kept | kept in sample.value :: Less(kept, c))
  {
    CodesAreOfValues(env, values);
    SortedSetIncreases(codes);
    var sorted, sample := SortedSet(codes), CodeSample(env, values).value;
    forall i, j | 0 <= i < j < |sample| ensures Less(sample[i], sample[j]) { IncreasingRises(sorted, i, j); }
    forall c | c in sample ensures c in codes { assert c in sorted; }
    forall c | c in codes && c !in sample
      ensures |sample| == 20 && forall kept | kept in sample :: Less(kept, c)
    {
      LeastAreKept(sorted, sample, c);
    }
  }

  lemma LeastAreKept(sorted: seq<string>, sample: seq<string>, c: string)
    requires Increasing(sorted) && sample == (if |sorted| <= 20 then sorted else sorted[..20])
    requires c in sorted && c !in sample
    ensures |sample| == 20 && forall kept | kept in sample :: Less(kept, c)
  {
    var j :| 0 <= j < |sorted| && sorted[j] == c;
    assert forall i | 0 <= i < |sample| :: sorted[i] in sample;
    forall kept | kept in sample ensures Less(kept, c) {
      var i :| 0 <= i < |sample| && sample[i] == kept;
      IncreasingRises(sorted, i, j);
    }
  }

  /** A sample is built exactly when its values have codes and its count, or else the number of its distinct values
      when there are any, is not negative and no less than the codes kept. */
  lemma SampleIsBuilt(env: Env, raw: Sample)
    ensures
      var r, codes := BuildSample(env, raw), CodeSample(env, raw.codes);
      var count := if raw.count.Some? || raw.codes == [] then raw.count else Some(|set c | c in raw.codes|);
      && (r.Some? <==> codes.Some? && (count.Some? ==> count.value >= 0 && count.value >= |codes.value|))
      && (r.Some? ==> r.value == Sample(count, codes.value))
  {
  }

  // ---------------------------------------------------------------- diagnostics

  ghost predicate HasSafeId(env: Env, id: Option<string>) { id.Some? ==> exists code :: IsCodeOf(env, id.value, code) }

  lemma SafeIdExists(env: Env, id: Option<string>)
    ensures SafeId(env, id).Some? <==> HasSafeId(env, id)
    ensures SafeId(env, id).Some? ==> (SafeId(env, id).value.Some? <==> id.Some?)
    ensures SafeId(env, id).Some? && id.Some? ==> IsCodeOf(env, id.value, SafeId(env, id).value.value)
  {
    if id.Some? {
      var r := SafeId(env, id);
      if r.Some? { IdIsCode(env, id.value, BoundedText(env, id.value, 256).value); }
      forall code ensures IsCodeOf(env, id.value, code) ==> r == Some(Some(code)) { IdIsCode(env, id.value, code); }
    }
  }

  ghost predicate NoNegativeCounts(c: Counts) {
    && (c.expected.Some? ==> c.expected.value >= 0) && (c.observed.Some? ==> c.observed.value >= 0)
    && (c.usable.Some? ==> c.usable.value >= 0) && (c.rankable.Some? ==> c.rankable.value >= 0)
    && (c.bars.Some? ==> c.bars.value >= 0)
  }

  /** Raw values make a diagnostic exactly when its texts are not white space, its identifiers safe, its counts not
      negative, and its samples can be built; it keeps each of them bounded in its own place, and at most eight
      entries. */
  lemma DiagnosticIsBuilt(env: Env, raw: Diagnostic)
    ensures
      var r := Build(env, raw);
      && (r.Some? <==>
            && BoundedText(env, raw.message, 500).Some? && BoundedText(env, raw.stage, 64).Some?
            && HasSafeId(env, raw.capability) && HasSafeId(env, raw.catalog)
            && HasSafeId(env, raw.existing) && HasSafeId(env, raw.observed)
            && NoNegativeCounts(raw.counts) && BuildSample(env, raw.live).Some? && BuildSample(env, raw.ranking).Some?)
      && (r.Some? ==>
            && r.value.reason == raw.reason && r.value.date == raw.date && r.value.retryable == raw.retryable
            && r.value.counts == raw.counts
            && r.value.message == BoundedText(env, raw.message, 500).value
            && r.value.stage == BoundedText(env, raw.stage, 64).value
            && r.value.capability == SafeId(env, raw.capability).value
            && r.value.catalog == SafeId(env, raw.catalog).value
            && r.value.existing == SafeId(env, raw.existing).value
            && r.value.observed == SafeId(env, raw.observed).value
            && r.value.live == BuildSample(env, raw.live).value
            && r.value.ranking == BuildSample(env, raw.ranking).value
            && |r.value.blockedBy| == (if |raw.blockedBy| < 8 then |raw.blockedBy| else 8)
            && r.value.blockedBy <= raw.blockedBy)
  {
    SafeIdExists(env, raw.capability);
    SafeIdExists(env, raw.catalog);
    SafeIdExists(env, raw.existing);
    SafeIdExists(env, raw.observed);
  }

  /** The value is written under the name, or the name is left out when there is none. */
  ghost predicate Holds(raw: map<Name, Json>, name: Name, value: Option<Json>) {
    if value.Some? then name in raw && raw[name] == value.value else name !in raw
  }

  function Written(s: Option<string>): Option<Json> { match s case Some(t) => Some(Text(t)) case None => None }

  function Counted(n: Option<int>): Option<Json> { match n case Some(k) => Some(Number(k)) case None => None }

  function Listed(codes: seq<string>): Option<Json> { if codes == [] then None else Some(List(Texts(codes))) }

  lemma FieldIsHeld(env: Env, d: Diagnostic, name: Name)
    requires name in FIELDS
    ensures Holds(AsDict(env, d), name, Field(env, d, name))
  {
  }

  /** The envelope holds every value of the diagnostic under its own name, and leaves out the ones it does not
      have. */
  lemma EnvelopeHoldsTexts(env: Env, d: Diagnostic)
    ensures
      var raw := AsDict(env, d);
      && Holds(raw, ReasonCode, Some(Code(d.reason))) && Holds(raw, MessageText, Some(Text(d.message)))
      && Holds(raw, FailureStage, Some(Text(d.stage))) && Holds(raw, ExactDate, Some(Text(env.iso(d.date))))
      && Holds(raw, RetryableFlag, Some(Bool(d.retryable)))
      && Holds(raw, CapabilityRevision, Written(d.capability)) && Holds(raw, CatalogRevision, Written(d.catalog))
      && Holds(raw, ExistingChecksum, Written(d.existing)) && Holds(raw, ObservedChecksum, Written(d.observed))
  {
    FieldIsHeld(env, d, ReasonCode);
    FieldIsHeld(env, d, MessageText);
    FieldIsHeld(env, d, FailureStage);
    FieldIsHeld(env, d, ExactDate);
    FieldIsHeld(env, d, RetryableFlag);
    FieldIsHeld(env, d, CapabilityRevision);
    FieldIsHeld(env, d, CatalogRevision);
    FieldIsHeld(env, d, ExistingChecksum);
    FieldIsHeld(env, d, ObservedChecksum);
  }

  lemma EnvelopeHoldsCounts(env: Env, d: Diagnostic)
    ensures
      var raw := AsDict(env, d);
      && Holds(raw, ExpectedCount, Counted(d.counts.expected)) && Holds(raw, ObservedCount, Counted(d.counts.observed))
      && Holds(raw, UsableCount, Counted(d.counts.usable)) && Holds(raw, RankableCount, Counted(d.counts.rankable))
      && Holds(raw, BarCount, Counted(d.counts.bars))
      && Holds(raw, MissingLiveCount, Counted(d.live.count))
      && Holds(raw, MissingRankingCount, Counted(d.ranking.count))
  {
    FieldIsHeld(env, d, ExpectedCount);
    FieldIsHeld(env, d, ObservedCount);
    FieldIsHeld(env, d, UsableCount);
    FieldIsHeld(env, d, RankableCount);
    FieldIsHeld(env, d, BarCount);
    FieldIsHeld(env, d, MissingLiveCount);
    FieldIsHeld(env, d, MissingRankingCount);
  }

  /** It holds the samples and the entries likewise, and nothing else. */
  lemma EnvelopeHoldsLists(env: Env, d: Diagnostic)
    ensures
      var raw := AsDict(env, d);
      && Holds(raw, MissingLiveCodes, Listed(d.live.codes)) && Holds(raw, MissingRankingCodes, Listed(d.ranking.codes))
      && Holds(raw, BlockedByList, if d.blockedBy == [] then None else Some(List(BlockedList(env, d.blockedBy))))
      && DatasetName !in raw && StatusName !in raw && forall name | name in raw :: !name.Unsupported?
  {
    FieldIsHeld(env, d, MissingLiveCodes);
    FieldIsHeld(env, d, MissingRankingCodes);
    FieldIsHeld(env, d, BlockedByList);
    forall name | name in AsDict(env, d) ensures name in FIELDS {}
  }

  /** And so does the mapping of an entry. */
  lemma EntryHolds(env: Env, b: BlockedBy)
    ensures
      var raw := BlockedAsDict(env, b);
      && Holds(raw, DatasetName, Some(Text(b.dataset))) && Holds(raw, StatusName, Some(Text(b.status)))
      && Holds(raw, ReasonCode, if b.reason.Some? then Some(Code(b.reason.value)) else None)
      && Holds(raw, ExactDate, if b.date.Some? then Some(Text(env.iso(b.date.value))) else None)
      && Holds(raw, CatalogRevision, Written(b.catalog))
      && forall name | name in raw :: name in {DatasetName, StatusName, ReasonCode, ExactDate, CatalogRevision}
  {
  }

  // ---------------------------------------------------------------- parsing

  /** Absent, null, or a number that is not negative. */
  ghost predicate IsAmount(raw: map<Name, Json>, name: Name) {
    name in raw ==> raw[name].Null? || (raw[name].Number? && raw[name].number >= 0)
  }

  ghost predicate IsOptionalText(raw: map<Name, Json>, name: Name) {
    name in raw ==> raw[name].Null? || raw[name].Text?
  }

  /** Absent, or a list of at most 20 texts. */
  ghost predicate IsSampleList(raw: map<Name, Json>, name: Name) {
    name in raw ==> raw[name].List? && |raw[name].items| <= 20 && forall j | j in raw[name].items :: j.Text?
  }

  ghost predicate IsReadableDate(env: Env, raw: map<Name, Json>, name: Name) {
    name in raw && raw[name].Text? && env.fromIso(raw[name].text).Some?
  }

  /** Every value of an envelope has its type, and there are only the names of a diagnostic. */
  ghost predicate IsWellFormed(env: Env, raw: map<Name, Json>) {
    && (forall name | name in raw :: !name.Unsupported? && name !in {DatasetName, StatusName})
    && IsWellTyped(env, raw) && HasFewEntries(raw)
  }

  ghost predicate HasFewEntries(raw: map<Name, Json>) {
    BlockedByList in raw ==>
      raw[BlockedByList].Null? || (raw[BlockedByList].List? && |raw[BlockedByList].items| <= 8)
  }

  ghost predicate IsWellTyped(env: Env, raw: map<Name, Json>) {
    && ReasonCode in raw && raw[ReasonCode].Code? && RetryableFlag in raw && raw[RetryableFlag].Bool?
    && MessageText in raw && raw[MessageText].Text? && FailureStage in raw && raw[FailureStage].Text?
    && IsReadableDate(env, raw, ExactDate)
    && (forall name | name in {CapabilityRevision, CatalogRevision, ExistingChecksum, ObservedChecksum} ::
          IsOptionalText(raw, name))
    && (forall name | name in {ExpectedCount, ObservedCount, UsableCount, RankableCount, BarCount, MissingLiveCount,
                               MissingRankingCount} :: IsAmount(raw, name))
    && IsSampleList(raw, MissingLiveCodes) && IsSampleList(raw, MissingRankingCodes)
  }

  lemma {:induction false} TextsAreTexts(items: seq<Json>)
    ensures ReadTexts(items).Some? <==> forall j | j in items :: j.Text?
  {
    if items != [] {
      TextsAreTexts(items[1..]);
      assert items == [items[0]] + items[1..];
    }
  }

  lemma CodesAreList(raw: map<Name, Json>, name: Name)
    ensures ReadCodes(raw, name).Some? <==> IsSampleList(raw, name)
  {
    if name in raw && raw[name].List? { TextsAreTexts(raw[name].items); }
  }

  lemma AmountIsRead(raw: map<Name, Json>, name: Name)
    ensures ReadCount(Get(raw, name)).Some? <==> IsAmount(raw, name)
  {
  }

  lemma TextIsRead(raw: map<Name, Json>, name: Name)
    ensures ReadText(Get(raw, name)).Some? <==> IsOptionalText(raw, name)
  {
  }

  /** Only a mapping whose values have their types, and whose size is within the limit, is parsed. */
  lemma ParsedIsWellFormed(env: Env, raw: map<Name, Json>)
    requires Parse(env, raw).Some?
    ensures IsWellFormed(env, raw) && env.size(raw) <= 4096
  {
    ParsedIsRead(env, raw);
    DecodedIsWellTyped(env, raw);
    EntriesAreFew(env, raw);
    FieldsAreSupported(raw);
  }

  lemma ParsedIsRead(env: Env, raw: map<Name, Json>)
    requires Parse(env, raw).Some?
    ensures env.size(raw) <= 4096 && raw.Keys <= FIELDS
    ensures Decode(env, raw).Some? && ReadBlockedBy(env, Get(raw, BlockedByList)).Some?
  {
  }

  lemma EntriesAreFew(env: Env, raw: map<Name, Json>)
    requires ReadBlockedBy(env, Get(raw, BlockedByList)).Some?
    ensures HasFewEntries(raw)
  {
  }

  lemma FieldsAreSupported(raw: map<Name, Json>)
    requires raw.Keys <= FIELDS
    ensures forall name | name in raw :: !name.Unsupported? && name !in {DatasetName, StatusName}
  {
    forall name | name in raw ensures !name.Unsupported? && name !in {DatasetName, StatusName} {
      assert name in raw.Keys;
    }
  }

  lemma DecodedIsWellTyped(env: Env, raw: map<Name, Json>)
    requires Decode(env, raw).Some?
    ensures IsWellTyped(env, raw)
  {
    CodesAreList(raw, MissingLiveCodes);
    CodesAreList(raw, MissingRankingCodes);
    AmountsAreRead(raw);
    IdsAreRead(raw);
  }

  lemma AmountsAreRead(raw: map<Name, Json>)
    ensures
      ReadCounts(raw).Some? && ReadSample(raw, MissingLiveCount, MissingLiveCodes).Some?
      && ReadSample(raw, MissingRankingCount, MissingRankingCodes).Some? ==>
        forall name | name in {ExpectedCount, ObservedCount, UsableCount, RankableCount, BarCount, MissingLiveCount,
                               MissingRankingCount} :: IsAmount(raw, name)
  {
    forall name ensures ReadCount(Get(raw, name)).Some? <==> IsAmount(raw, name) { AmountIsRead(raw, name); }
  }

  lemma IdsAreRead(raw: map<Name, Json>)
    ensures ReadIdentifiers(raw).Some? <==>
      forall name | name in {CapabilityRevision, CatalogRevision, ExistingChecksum, ObservedChecksum} ::
        IsOptionalText(raw, name)
  {
    forall name ensures ReadText(Get(raw, name)).Some? <==> IsOptionalText(raw, name) { TextIsRead(raw, name); }
  }
}
