/**
 * Diagnostics that do not survive their envelope, in an environment whose only redaction is that of
 * `token=` assignments. The environment is regular, so the conditions on raw texts apply to it.
 */
module DiagnosticFailures {
  import opened Common
  import opened ThsDiagnostics
  import opened DiagnosticTexts

  const MARK := "[redacted]"

  // ---------------------------------------------------------------- redacting tokens

  /** The characters of a value, which ends at a space, a comma or a semicolon. */
  function ValueLength(s: string): (n: nat)
    ensures n <= |s|
    ensures n > 0 <==> s != "" && s[0] !in " ,;"
  {
    if s == "" || s[0] in " ,;" then 0 else 1 + ValueLength(s[1..])
  }

  predicate Assigns(s: string) { "token=" <= s && ValueLength(s[6..]) > 0 }

  function RedactTokens(s: string): string
    decreases |s|
  {
    if s == "" then ""
    else if Assigns(s) then MARK + RedactTokens(s[6 + ValueLength(s[6..])..])
    else [s[0]] + RedactTokens(s[1..])
  }

  /** What does not begin with the mark begins with the text's own character. */
  lemma HeadIsKept(s: string)
    requires RedactTokens(s) != "" && RedactTokens(s)[0] != '['
    ensures s != "" && RedactTokens(s) == [s[0]] + RedactTokens(s[1..])
    ensures RedactTokens(s)[0] == s[0] && RedactTokens(s)[1..] == RedactTokens(s[1..])
  {
  }

  lemma TokenIsKept(s: string)
    requires "token=" <= RedactTokens(s)
    ensures "token=" <= s && RedactTokens(s)[6..] == RedactTokens(s[6..])
  {
    var r := RedactTokens(s);
    HeadIsKept(s);
    assert RedactTokens(s[1..])[0] == r[1];
    HeadIsKept(s[1..]);
    assert s[1..][1..] == s[2..] && RedactTokens(s[2..])[0] == r[2];
    HeadIsKept(s[2..]);
    assert s[2..][1..] == s[3..] && RedactTokens(s[3..])[0] == r[3];
    HeadIsKept(s[3..]);
    assert s[3..][1..] == s[4..] && RedactTokens(s[4..])[0] == r[4];
    HeadIsKept(s[4..]);
    assert s[4..][1..] == s[5..] && RedactTokens(s[5..])[0] == r[5];
    HeadIsKept(s[5..]);
    assert s[5..][1..] == s[6..];
  }

  lemma ValueBeginsAsBefore(s: string)
    requires ValueLength(RedactTokens(s)) > 0
    ensures ValueLength(s) > 0
  {
    if s != "" && !Assigns(s) { assert RedactTokens(s)[0] == s[0]; }
  }

  lemma ResultAssignsNoMore(s: string)
    ensures Assigns(RedactTokens(s)) ==> Assigns(s)
  {
    if Assigns(RedactTokens(s)) {
      TokenIsKept(s);
      ValueBeginsAsBefore(s[6..]);
    }
  }

  lemma OtherHeadIsKept(s: string)
    requires s != "" && !("token=" <= s)
    ensures RedactTokens(s) == [s[0]] + RedactTokens(s[1..])
  {
  }

  lemma {:induction false} PlainStartIsKept(p: string, s: string)
    requires forall i | 0 <= i < |p| :: !("token=" <= (p + s)[i..])
    ensures RedactTokens(p + s) == p + RedactTokens(s)
  {
    if p == "" {
      assert p + s == s;
    } else {
      assert (p + s)[0..] == p + s && (p + s)[1..] == p[1..] + s;
      forall i | 0 <= i < |p[1..]| ensures !("token=" <= (p[1..] + s)[i..]) {
        assert (p[1..] + s)[i..] == (p + s)[i + 1..];
      }
      PlainStartIsKept(p[1..], s);
      OtherHeadIsKept(p + s);
      FirstAndRest(p, RedactTokens(s));
    }
  }

  lemma FirstAndRest(p: string, s: string)
    requires p != ""
    ensures p + s == [p[0]] + (p[1..] + s)
  {
  }

  lemma MarkIsKept(s: string)
    ensures RedactTokens(MARK + s) == MARK + RedactTokens(s)
  {
    var t := MARK + s;
    forall i | 0 <= i < |MARK| ensures !("token=" <= t[i..]) {
      assert t[i] == MARK[i];
      if MARK[i] == 't' { assert t[i..][1] == t[i + 1] == MARK[i + 1]; }
    }
    PlainStartIsKept(MARK, s);
  }

  lemma {:induction false} TokensAreRedactedOnce(s: string)
    ensures RedactTokens(RedactTokens(s)) == RedactTokens(s)
    decreases |s|
  {
    if s != "" {
      if Assigns(s) {
        var rest := s[6 + ValueLength(s[6..])..];
        TokensAreRedactedOnce(rest);
        MarkIsKept(RedactTokens(rest));
      } else {
        TokensAreRedactedOnce(s[1..]);
        ResultAssignsNoMore(s);
        assert RedactTokens(s)[1..] == RedactTokens(s[1..]);
      }
    }
  }

  lemma {:induction false} RedactedTokensShow(s: string)
    requires RedactTokens(s) != s
    ensures ShowsMark(s, RedactTokens(s))
    decreases |s|
  {
    var r := RedactTokens(s);
    if Assigns(s) {
      assert s[0] == 't' && r[0] == '[';
    } else {
      assert s == [s[0]] + s[1..];
      RedactedTokensShow(s[1..]);
      var i :| 0 <= i < |s[1..]| && i < |RedactTokens(s[1..])| && s[1..][i] != '[' && s[1..][i] != '\U{2026}'
        && RedactTokens(s[1..])[i] == '[';
      assert s[i + 1] == s[1..][i] && r[i + 1] == '[';
    }
  }

  // ---------------------------------------------------------------- the environment

  /** One stroke for each day of a date: any text that reads back does. */
  function Tally(day: int): string { if day < 0 then "-" + seq(-day, _ => '1') else seq(day, _ => '1') }

  function FromTally(s: string): Option<int> { if s != "" && s[0] == '-' then Some(1 - |s|) else Some(|s|) }

  const PLAIN := Env(
    Tally, FromTally, s => s, RedactTokens, s => s, c => c == ' ', c => c == '\U{1}', (m: map<Name, Json>) => |m|)

  /** Single spaces, perhaps one at the start. */
  ghost predicate Spaced(s: string) { forall i | 0 <= i < |s| :: SpacedAt(s, i) }

  ghost predicate SpacedAt(s: string, i: nat)
    requires i < |s|
  {
    s[i] != '\U{1}' && (s[i] == ' ' ==> i < |s| - 1 && s[i + 1] != ' ')
  }

  lemma {:induction false} RedactionStaysSpaced(s: string)
    requires Spaced(s)
    ensures Spaced(RedactTokens(s)) && (RedactTokens(s) == "" <==> s == "")
    ensures s != "" ==> (RedactTokens(s)[0] == ' ' <==> s[0] == ' ')
    decreases |s|
  {
    if s != "" {
      var n := if Assigns(s) then 6 + ValueLength(s[6..]) else 1;
      var head, rest := if Assigns(s) then MARK else [s[0]], s[n..];
      assert Spaced(rest) by {
        forall i | 0 <= i < |rest| ensures SpacedAt(rest, i) { assert SpacedAt(s, n + i); }
      }
      assert SpacedAt(s, 0);
      RedactionStaysSpaced(rest);
      HeadStaysSpaced(head, RedactTokens(rest));
    }
  }

  lemma HeadStaysSpaced(head: string, rest: string)
    requires Spaced(rest) && (head == MARK || (|head| == 1 && head[0] != '\U{1}'))
    requires head == " " ==> rest != "" && rest[0] != ' '
    ensures Spaced(head + rest)
  {
    var s := head + rest;
    forall i | 0 <= i < |s| ensures SpacedAt(s, i) {
      if i >= |head| {
        assert SpacedAt(rest, i - |head|) && s[i] == rest[i - |head|];
        if i < |s| - 1 { assert s[i + 1] == rest[i + 1 - |head|]; }
      } else {
        assert s[i] == head[i];
        if head == " " { assert s[i + 1] == rest[0]; }
      }
    }
  }

  lemma NormalIsSpaced(s: string)
    ensures IsNormal(PLAIN, s) <==> Spaced(s) && (s == "" || s[0] != ' ')
  {
    if IsNormal(PLAIN, s) {
      forall i | 0 <= i < |s| ensures SpacedAt(s, i) { assert NormalAt(PLAIN, s, i); }
      if s != "" { assert NormalAt(PLAIN, s, 0); }
    }
    if Spaced(s) && (s == "" || s[0] != ' ') {
      forall i | 0 <= i < |s| ensures NormalAt(PLAIN, s, i) { assert SpacedAt(s, i); }
    }
  }

  lemma PlainIsRegular()
    ensures Regular(PLAIN)
  {
    forall s ensures RedactTokens(s) == s || ShowsMark(s, RedactTokens(s)) {
      if RedactTokens(s) != s { RedactedTokensShow(s); }
    }
    forall s | IsNormal(PLAIN, s)
      ensures IsNormal(PLAIN, Marked(PLAIN, s)) && Marked(PLAIN, Marked(PLAIN, s)) == Marked(PLAIN, s)
    {
      NormalIsSpaced(s);
      RedactionStaysSpaced(s);
      NormalIsSpaced(RedactTokens(s));
      TokensAreRedactedOnce(s);
    }
  }

  // ---------------------------------------------------------------- the failures

  const NO_COUNTS := Counts(None, None, None, None, None)
  const NO_SAMPLE := Sample(None, [])

  function Plain(message: string, stage: string): Diagnostic {
    Diagnostic(
      LiveValuesMissing, message, stage, 0, false, None, None, NO_COUNTS, NO_SAMPLE, NO_SAMPLE, None, None, [])
  }

  /** Plain values are built whenever their texts are not blank, and are small enough to encode. */
  lemma PlainIsStored(message: string, stage: string)
    requires !Blank(PLAIN, message) && !Blank(PLAIN, stage)
    ensures Build(PLAIN, Plain(message, stage)).Some?
    ensures var d := Build(PLAIN, Plain(message, stage)).value;
      d.message == BoundedText(PLAIN, message, 500).value && Encode(PLAIN, d).Some?
  {
    var d := Build(PLAIN, Plain(message, stage)).value;
    assert AsDict(PLAIN, d).Keys <= FIELDS;
    FewFields(AsDict(PLAIN, d).Keys);
  }

  lemma FewFields(names: set<Name>)
    requires names <= FIELDS
    ensures |names| <= MAX_BYTES
  {
    SubsetIsSmaller(names, FIELDS);
  }

  lemma {:induction false} SubsetIsSmaller<T>(a: set<T>, b: set<T>)
    requires a <= b
    ensures |a| <= |b|
  {
    if a != {} {
      var x :| x in a;
      SubsetIsSmaller(a - {x}, b - {x});
    }
  }

  /** A message of one control character is accepted, stored as no text, encoded, and refused when parsed. */
  lemma ControlMessageIsRefused()
    ensures Build(PLAIN, Plain("\U{1}", "collect")).Some?
    ensures var d := Build(PLAIN, Plain("\U{1}", "collect")).value;
      d.message == "" && Encode(PLAIN, d).Some? && Parse(PLAIN, Encode(PLAIN, d).value) == None
  {
    var raw := Plain("\U{1}", "collect");
    assert !PLAIN.isSpace(raw.message[0]) && !PLAIN.isSpace(raw.stage[0]);
    PlainIsStored(raw.message, raw.stage);
    PlainIsRegular();
    RedactedIsNormal(PLAIN, raw.message);
    ParsesIffNoTextWasEmptied(PLAIN, raw, []);
  }

  const DASHES := seq(57, _ => '-')
  const LONG_STAGE := DASHES + "token=,,"

  lemma TokensAmongDashes(s: string)
    requires s == "token=,," || s == "token=\U{2026}"
    ensures RedactTokens(DASHES + s) == DASHES + RedactTokens(s)
  {
    forall i | 0 <= i < 57 ensures !("token=" <= (DASHES + s)[i..]) {
      assert (DASHES + s)[i..][0] == '-';
    }
    PlainStartIsKept(DASHES, s);
  }

  /** Nothing is found in a token that has no value. */
  lemma NoValueIsKept()
    ensures RedactTokens("token=,,") == "token=,,"
  {
    var s := "token=,,";
    assert !Assigns(s) by { assert s[6..] == ",,"; }
    forall i | 0 < i < |s| ensures s[i] != 't' {}
    PlainIsKept(s[1..]);
    assert s == [s[0]] + s[1..];
  }

  lemma {:induction false} PlainIsKept(s: string)
    requires 't' !in s
    ensures RedactTokens(s) == s
  {
    if s != "" {
      PlainIsKept(s[1..]);
      assert s == [s[0]] + s[1..];
    }
  }

  lemma WordIsNormal(s: string)
    requires ' ' !in s && '\U{1}' !in s
    ensures IsNormal(PLAIN, s)
  {
    forall i | 0 <= i < |s| ensures NormalAt(PLAIN, s, i) { assert s[i] in s; }
  }

  lemma LongStageIsPlain()
    ensures Redacted(PLAIN, LONG_STAGE) == LONG_STAGE
  {
    WordIsNormal(LONG_STAGE);
    NormalHasNoControls(PLAIN, LONG_STAGE);
    NormalIsItsWords(PLAIN, LONG_STAGE);
    NoValueIsKept();
    TokensAmongDashes("token=,,");
  }

  lemma LongStageIsCut()
    ensures Cut(PLAIN, LONG_STAGE, 64) == DASHES + "token=\U{2026}"
  {
    var kept := LONG_STAGE[..63];
    assert kept == DASHES + "token=";
    assert kept[62] == "token="[5];
    assert StripRight(PLAIN, kept) == kept;
    assert "token=" + "\U{2026}" == "token=\U{2026}";
  }

  /** Redaction finds a token in the stage that was cut. */
  lemma CutStageIsMarked()
    ensures !Survives(PLAIN, LONG_STAGE, 64)
  {
    LongStageIsPlain();
    var token := "token=\U{2026}";
    LongStageIsCut();
    TokensAmongDashes(token);
    assert Assigns(token) by { assert token[6..] == "\U{2026}"; }
    assert (DASHES + RedactTokens(token))[57] == '[' && (DASHES + token)[57] == 't';
  }

  /** A stage cut right after `token=` is stored with the ellipsis as the token's value, which parsing
      redacts: what comes back is another diagnostic. */
  lemma CutStageComesBackChanged()
    ensures Build(PLAIN, Plain("x", LONG_STAGE)).Some?
    ensures var d := Build(PLAIN, Plain("x", LONG_STAGE)).value;
      && Encode(PLAIN, d).Some?
      && Parse(PLAIN, Encode(PLAIN, d).value).Some?
      && Parse(PLAIN, Encode(PLAIN, d).value) != Some(d)
  {
    var raw := Plain("x", LONG_STAGE);
    assert IsVisible(PLAIN, raw.message[0]) && IsVisible(PLAIN, raw.stage[0]);
    PlainIsStored(raw.message, raw.stage);
    PlainIsRegular();
    CutStageIsMarked();
    RoundTripIffRawTextsSurvive(PLAIN, raw, []);
    ParsesIffNoTextWasEmptied(PLAIN, raw, []);
  }
}
