/**
 * Which raw texts survive the storage envelope of a diagnostic: storing bounds each free text once, parsing
 * bounds the stored one again. The conditions are about the raw texts, and every way of failing is shown by
 * a diagnostic that meets it.
 */
module DiagnosticTexts {
  import opened Common
  import opened ThsDiagnostics

  // ---------------------------------------------------------------- normal texts

  /** No control characters, and single spaces between words only. */
  ghost predicate IsNormal(env: Env, s: string) { forall i | 0 <= i < |s| :: NormalAt(env, s, i) }

  ghost predicate NormalAt(env: Env, s: string, i: nat)
    requires i < |s|
  {
    !env.isControl(s[i]) && (env.isSpace(s[i]) ==> s[i] == ' ' && 0 < i < |s| - 1 && !env.isSpace(s[i + 1]))
  }

  /** The three redactions in their order. */
  function Marked(env: Env, s: string): string { env.redactBearers(env.redactSecrets(env.redactUrls(s))) }

  /** A mark stands where the first thing found began. */
  ghost predicate ShowsMark(s: string, marked: string) {
    exists i | 0 <= i < |s| && i < |marked| :: s[i] != '[' && s[i] != '\U{2026}' && marked[i] == '['
  }

  /** Sound, and redaction replaces whole words once: it puts its mark where the first of them began, leaves a
      normal text normal, and finds nothing in its own result and nothing in no text. Marks and the ellipsis
      are visible; a space is no control character. */
  ghost predicate Regular(env: Env) {
    && env.Sound()
    && !env.isSpace('[')
    && IsVisible(env, '\U{2026}')
    && !env.isControl(' ')
    && Marked(env, "") == ""
    && (forall s :: Marked(env, s) == s || ShowsMark(s, Marked(env, s)))
    && forall s | IsNormal(env, s) :: IsNormal(env, Marked(env, s)) && Marked(env, Marked(env, s)) == Marked(env, s)
  }

  predicate IsVisible(env: Env, c: char) { !env.isSpace(c) && !env.isControl(c) }

  /** Some character is neither white space nor a control character. */
  predicate HasText(env: Env, s: string) { exists i | 0 <= i < |s| :: IsVisible(env, s[i]) }

  lemma {:induction false} ControlsAreReplaced(env: Env, s: string)
    ensures |WithoutControls(env, s)| == |s|
    ensures forall i | 0 <= i < |s| :: WithoutControls(env, s)[i] == if env.isControl(s[i]) then ' ' else s[i]
  {
    if s != "" { ControlsAreReplaced(env, s[1..]); }
  }

  lemma {:induction false} WordEndsAtSpace(env: Env, s: string)
    ensures forall i | 0 <= i < |Word(env, s)| :: !env.isSpace(s[i])
    ensures |Word(env, s)| < |s| ==> env.isSpace(s[|Word(env, s)|])
  {
    if s != "" && !env.isSpace(s[0]) { WordEndsAtSpace(env, s[1..]); }
  }

  lemma WordThenWordsIsNormal(env: Env, w: string, rest: string)
    requires !env.isControl(' ') && IsNormal(env, rest) && w != "" && rest != ""
    requires forall i | 0 <= i < |w| :: IsVisible(env, w[i])
    ensures IsNormal(env, w + " " + rest)
  {
    var s := w + " " + rest;
    assert NormalAt(env, rest, 0);
    forall i | 0 <= i < |s| ensures NormalAt(env, s, i) {
      if i < |w| {
        assert s[i] == w[i];
      } else if i > |w| {
        assert NormalAt(env, rest, i - |w| - 1) && s[i] == rest[i - |w| - 1];
        if i < |s| - 1 { assert s[i + 1] == rest[i - |w|]; }
      } else {
        assert s[i + 1] == rest[0];
      }
    }
  }

  lemma {:induction false} WordsAreNormal(env: Env, s: string)
    requires env.isSpace(' ') && !env.isControl(' ') && forall i | 0 <= i < |s| :: !env.isControl(s[i])
    ensures IsNormal(env, Words(env, s))
    ensures Words(env, s) == "" <==> Blank(env, s)
    decreases |s|
  {
    if s != "" {
      if env.isSpace(s[0]) {
        WordsAreNormal(env, s[1..]);
      } else {
        var w := Word(env, s);
        WordEndsAtSpace(env, s);
        WordsAreNormal(env, s[|w|..]);
        var rest := Words(env, s[|w|..]);
        if rest != "" { WordThenWordsIsNormal(env, w, rest); }
      }
    }
  }

  lemma NormalHasNoControls(env: Env, s: string)
    requires IsNormal(env, s)
    ensures WithoutControls(env, s) == s
  {
    ControlsAreReplaced(env, s);
    forall i | 0 <= i < |s| ensures WithoutControls(env, s)[i] == s[i] { assert NormalAt(env, s, i); }
  }

  /** A normal text is one word, or its first word, a space and a normal text. */
  lemma NormalSplits(env: Env, s: string)
    requires IsNormal(env, s) && s != ""
    ensures var n := |Word(env, s)|;
      0 < n <= |s| && (n < |s| ==> n + 1 < |s| && s[n] == ' ' && env.isSpace(' ') && IsNormal(env, s[n + 1..]))
  {
    WordEndsAtSpace(env, s);
    assert NormalAt(env, s, 0);
    var n := |Word(env, s)|;
    if n < |s| {
      var rest := s[n + 1..];
      assert NormalAt(env, s, n);
      forall i | 0 <= i < |rest| ensures NormalAt(env, rest, i) {
        assert NormalAt(env, s, n + 1 + i) && rest[i] == s[n + 1 + i];
      }
    }
  }

  lemma {:induction false} NormalIsItsWords(env: Env, s: string)
    requires IsNormal(env, s)
    ensures Words(env, s) == s
    decreases |s|
  {
    if s != "" {
      NormalSplits(env, s);
      var n := |Word(env, s)|;
      if n < |s| {
        NormalIsItsWords(env, s[n + 1..]);
        WordsAfterWord(env, s, n);
      } else {
        OneWordIsItsWords(env, s);
      }
    }
  }

  lemma OneWordIsItsWords(env: Env, s: string)
    requires |Word(env, s)| == |s| > 0
    ensures Words(env, s) == s
  {
    assert s[|s|..] == "" && !env.isSpace(s[0]);
  }

  lemma WordsAfterWord(env: Env, s: string, n: nat)
    requires n == |Word(env, s)| && 0 < n && n + 1 < |s| && env.isSpace(s[n])
    requires s[n] == ' ' && Words(env, s[n + 1..]) == s[n + 1..]
    ensures Words(env, s) == s
  {
    SpaceIsSkipped(env, s[n..], s[n + 1..]);
    WordsAreJoined(env, s, s[..n], s[n + 1..]);
    SplitAtSpace(s, n);
  }

  lemma SpaceIsSkipped(env: Env, s: string, rest: string)
    requires s != "" && env.isSpace(s[0]) && rest == s[1..]
    ensures Words(env, s) == Words(env, rest)
  {
  }

  lemma WordsAreJoined(env: Env, s: string, w: string, rest: string)
    requires w == Word(env, s) != "" && Words(env, s[|w|..]) == rest != ""
    ensures Words(env, s) == w + " " + rest
  {
  }

  lemma SplitAtSpace(s: string, n: nat)
    requires n < |s| && s[n] == ' '
    ensures s == s[..n] + " " + s[n + 1..]
  {
  }

  lemma {:induction false} StripRightIsPrefix(env: Env, s: string)
    ensures StripRight(env, s) <= s
    ensures forall i | 0 <= i < |s| && !env.isSpace(s[i]) :: i < |StripRight(env, s)|
    ensures StripRight(env, s) != "" ==> !env.isSpace(StripRight(env, s)[|StripRight(env, s)| - 1])
    decreases |s|
  {
    if s != "" && env.isSpace(s[|s| - 1]) { StripRightIsPrefix(env, s[..|s| - 1]); }
  }

  /** What is kept of a text that is too long. */
  function Cut(env: Env, s: string, maximum: nat): string
    requires 0 < maximum <= |s|
  {
    StripRight(env, s[..maximum - 1]) + "\U{2026}"
  }

  lemma CutIsNormal(env: Env, s: string, maximum: nat)
    requires 0 < maximum <= |s| && IsNormal(env, s) && IsVisible(env, '\U{2026}')
    ensures IsNormal(env, Cut(env, s, maximum)) && !Blank(env, Cut(env, s, maximum))
    ensures |Cut(env, s, maximum)| <= maximum
  {
    var kept := StripRight(env, s[..maximum - 1]);
    StripRightIsPrefix(env, s[..maximum - 1]);
    var cut := Cut(env, s, maximum);
    assert cut[|kept|] == '\U{2026}';
    forall i | 0 <= i < |cut| ensures NormalAt(env, cut, i) {
      if i < |kept| { assert NormalAt(env, s, i); }
    }
  }

  // ---------------------------------------------------------------- one text

  /** Redaction of a normalised text, and when nothing is left of it. */
  lemma RedactedIsNormal(env: Env, s: string)
    requires Regular(env)
    ensures IsNormal(env, Redacted(env, s)) && Marked(env, Redacted(env, s)) == Redacted(env, s)
    ensures Redacted(env, s) == "" <==> !HasText(env, s)
  {
    var plain := WithoutControls(env, s);
    ControlsAreReplaced(env, s);
    WordsAreNormal(env, plain);
    assert Blank(env, plain) <==> !HasText(env, s) by {
      forall i | 0 <= i < |s| ensures env.isSpace(plain[i]) <==> !IsVisible(env, s[i]) {}
    }
    var words := Words(env, plain);
    MarkingLeavesSomething(env, words);
  }

  lemma MarkingLeavesSomething(env: Env, s: string)
    requires Regular(env)
    ensures Marked(env, s) == "" <==> s == ""
  {
    var a := env.redactUrls(s);
    var b := env.redactSecrets(a);
    assert a == s || '[' in a;
    assert b == a || '[' in b;
    assert env.redactBearers(b) == b || '[' in env.redactBearers(b);
  }

  /** A raw text that comes back as it is stored: it has a visible character and is not cut, or it is cut
      where redaction finds nothing more. */
  predicate Survives(env: Env, raw: string, maximum: nat)
    requires maximum > 0
  {
    var full := Redacted(env, raw);
    if |full| <= maximum then HasText(env, raw) else Marked(env, Cut(env, full, maximum)) == Cut(env, full, maximum)
  }

  /** A text that redaction changes is not what is stored of it. */
  lemma ChangeIsStored(env: Env, s: string, marked: string, maximum: nat)
    requires 0 < maximum < |marked| && |s| <= maximum && ShowsMark(s, marked) && !env.isSpace('[')
    ensures Cut(env, marked, maximum) != s
  {
    var i :| 0 <= i < |s| && i < |marked| && s[i] != '[' && s[i] != '\U{2026}' && marked[i] == '[';
    var kept := StripRight(env, marked[..maximum - 1]);
    StripRightIsPrefix(env, marked[..maximum - 1]);
    if i < maximum - 1 {
      assert marked[..maximum - 1][i] == '[';
      assert Cut(env, marked, maximum)[i] == kept[i] == '[';
    } else {
      assert Cut(env, marked, maximum)[|kept|] == '\U{2026}';
    }
  }

  lemma NormalIsBounded(env: Env, s: string, maximum: nat)
    requires Regular(env) && maximum > 0 && IsNormal(env, s) && |s| <= maximum
    ensures IsFixed(env, s, maximum) <==> s != "" && Marked(env, s) == s
    ensures BoundedText(env, s, maximum).None? <==> s == ""
  {
    NormalHasNoControls(env, s);
    NormalIsItsWords(env, s);
    if s != "" {
      assert NormalAt(env, s, 0);
      if |Marked(env, s)| > maximum { ChangeIsStored(env, s, Marked(env, s), maximum); }
    }
  }

  /** Bounding a stored text again keeps it exactly when the raw text survives, and refuses it exactly when
      the raw text has nothing visible. */
  lemma StoredTextIsFixedIffRawSurvives(env: Env, raw: string, maximum: nat)
    requires Regular(env) && maximum > 0 && BoundedText(env, raw, maximum).Some?
    ensures IsFixed(env, BoundedText(env, raw, maximum).value, maximum) <==> Survives(env, raw, maximum)
    ensures BoundedText(env, BoundedText(env, raw, maximum).value, maximum).None? <==> !HasText(env, raw)
  {
    var full := Redacted(env, raw);
    RedactedIsNormal(env, raw);
    if |full| <= maximum {
      NormalIsBounded(env, full, maximum);
    } else {
      CutIsNormal(env, full, maximum);
      NormalIsBounded(env, Cut(env, full, maximum), maximum);
    }
  }

  // ---------------------------------------------------------------- the round trip

  predicate EntrySurvives(env: Env, raw: BlockedBy) { Survives(env, raw.dataset, 64) && Survives(env, raw.status, 64) }

  predicate EntryHasText(env: Env, raw: BlockedBy) { HasText(env, raw.dataset) && HasText(env, raw.status) }

  function Least(a: nat, b: nat): (r: nat) { if a <= b then a else b }

  /** The raw entries from which a diagnostic's entries were built. */
  ghost predicate AreBuilt(env: Env, raws: seq<BlockedBy>, list: seq<BlockedBy>) {
    |raws| == |list| && forall i | 0 <= i < |raws| :: BuildBlockedBy(env, raws[i]) == Some(list[i])
  }

  ghost predicate AllSurvive(env: Env, raw: Diagnostic, entries: seq<BlockedBy>) {
    && Survives(env, raw.message, 500) && Survives(env, raw.stage, 64)
    && forall i | 0 <= i < Least(|entries|, BLOCKED_BY_LIMIT) :: EntrySurvives(env, entries[i])
  }

  ghost predicate AllHaveText(env: Env, raw: Diagnostic, entries: seq<BlockedBy>) {
    && HasText(env, raw.message) && HasText(env, raw.stage)
    && forall i | 0 <= i < Least(|entries|, BLOCKED_BY_LIMIT) :: EntryHasText(env, entries[i])
  }

  lemma EntryIsFixedIffRawSurvives(env: Env, raw: BlockedBy, b: BlockedBy)
    requires Regular(env) && BuildBlockedBy(env, raw) == Some(b)
    ensures EntryIsFixed(env, b) <==> EntrySurvives(env, raw)
    ensures ReadBlocked(env, Object(BlockedAsDict(env, b))).Some? <==> EntryHasText(env, raw)
  {
    StoredTextIsFixedIffRawSurvives(env, raw.dataset, 64);
    StoredTextIsFixedIffRawSurvives(env, raw.status, 64);
    SafeIdIsStable(env, raw.catalog);
    EntryDecodes(env, b);
  }

  /** A diagnostic built from raw values comes back from its envelope as it is exactly when its raw message
      and stage and the raw texts of the entries kept survive; all else always comes back. */
  lemma RoundTripIffRawTextsSurvive(env: Env, raw: Diagnostic, entries: seq<BlockedBy>)
    requires Regular(env) && AreBuilt(env, entries, raw.blockedBy) && Build(env, raw).Some?
    requires Encode(env, Build(env, raw).value).Some?
    ensures var d := Build(env, raw).value;
      Parse(env, Encode(env, d).value) == Some(d) <==> AllSurvive(env, raw, entries)
  {
    var d := Build(env, raw).value;
    assert EntriesAreConstructed(env, raw.blockedBy) by {
      forall i | 0 <= i < |entries| ensures EntryIsConstructed(env, raw.blockedBy[i]) {
        assert BuildBlockedBy(env, entries[i]) == Some(raw.blockedBy[i]);
      }
    }
    RoundTripIffTextsAreFixed(env, d);
    StoredTextIsFixedIffRawSurvives(env, raw.message, 500);
    StoredTextIsFixedIffRawSurvives(env, raw.stage, 64);
    forall i | 0 <= i < |d.blockedBy| ensures EntryIsFixed(env, d.blockedBy[i]) <==> EntrySurvives(env, entries[i]) {
      EntryIsFixedIffRawSurvives(env, entries[i], d.blockedBy[i]);
    }
  }

  lemma {:induction false} ListIsReadable(env: Env, items: seq<Json>)
    ensures ReadBlockedList(env, items).Some? <==> forall i | 0 <= i < |items| :: ReadBlocked(env, items[i]).Some?
  {
    if items != [] {
      ListIsReadable(env, items[1..]);
      forall i | 0 < i < |items| ensures items[1..][i - 1] == items[i] {}
    }
  }

  /** The kept entries are readable exactly when the raw ones have text. */
  lemma EntriesAreReadable(env: Env, d: Diagnostic, entries: seq<BlockedBy>)
    requires Regular(env) && |d.blockedBy| == Least(|entries|, BLOCKED_BY_LIMIT)
    requires forall i | 0 <= i < |d.blockedBy| :: BuildBlockedBy(env, entries[i]) == Some(d.blockedBy[i])
    ensures ReadBlockedBy(env, Get(AsDict(env, d), BlockedByList)).Some? <==>
      forall i | 0 <= i < |d.blockedBy| :: EntryHasText(env, entries[i])
  {
    var items := BlockedList(env, d.blockedBy);
    BlockedByIsWritten(env, d);
    ListIsReadable(env, items);
    forall i | 0 <= i < |d.blockedBy| ensures ReadBlocked(env, items[i]).Some? <==> EntryHasText(env, entries[i]) {
      EntryIsFixedIffRawSurvives(env, entries[i], d.blockedBy[i]);
    }
  }

  /** Building again refuses only over the two free texts. */
  lemma RebuildIsRefused(env: Env, raw: Diagnostic, d: Diagnostic, list: seq<BlockedBy>)
    requires env.Sound() && Build(env, raw) == Some(d)
    ensures Build(env, d.(blockedBy := list)).Some? <==>
      BoundedText(env, d.message, 500).Some? && BoundedText(env, d.stage, 64).Some?
  {
    SafeIdIsStable(env, raw.capability);
    SafeIdIsStable(env, raw.catalog);
    SafeIdIsStable(env, raw.existing);
    SafeIdIsStable(env, raw.observed);
    BuildSampleIsStable(env, raw.live);
    BuildSampleIsStable(env, raw.ranking);
  }

  /** An encoded diagnostic parses at all exactly when none of its raw texts was emptied. */
  lemma ParsesIffNoTextWasEmptied(env: Env, raw: Diagnostic, entries: seq<BlockedBy>)
    requires Regular(env) && AreBuilt(env, entries, raw.blockedBy) && Build(env, raw).Some?
    requires Encode(env, Build(env, raw).value).Some?
    ensures var d := Build(env, raw).value;
      Parse(env, Encode(env, d).value).Some? <==> AllHaveText(env, raw, entries)
  {
    var d := Build(env, raw).value;
    BuildKeepsConstructed(env, raw, d);
    var blocked := ReadBlockedBy(env, Get(AsDict(env, d), BlockedByList));
    FromMappingBuilds(env, d, blocked);
    EntriesAreReadable(env, d, entries);
    StoredTextIsFixedIffRawSurvives(env, raw.message, 500);
    StoredTextIsFixedIffRawSurvives(env, raw.stage, 64);
    if blocked.Some? { RebuildIsRefused(env, raw, d, blocked.value); }
    assert Parse(env, Encode(env, d).value) == FromMapping(env, AsDict(env, d));
  }
}
