/**
 * run.py: turning the generated dialogue into the ordered list of utterances
 * handed to speech synthesis, and the character sanitiser applied to each
 * utterance so that ChatTTS does not read punctuation aloud.
 */
module Transcript {
  import opened Wrappers
  import opened Strings

  /** The registered voices and their seeds (run.py's `speaker_seed_map`). */
  const SpeakerSeeds: map<string, int> :=
    map["Justin" := 2800, "Emma" := 2400, "Danzai" := 4600, "Doudou" := 13200]

  /** The characters the sanitiser removes. */
  const Unspeakable: set<char> := {'?', '\'', '\U{2019}', '!', '-', '(', ')', '"', ':'}

  /** What the sanitiser makes of one character: `?` and `!` become a comma,
      the other unspeakable characters a space, everything else stays. */
  function SanitizeChar(c: char): (d: char)
    ensures d !in Unspeakable
    ensures c !in Unspeakable ==> d == c
    ensures c in Unspeakable ==> d == (if c == '?' || c == '!' then ',' else ' ')
  {
    if c == '?' || c == '!' then ','
    else if c in Unspeakable then ' '
    else c
  }

  /** The replacements of `sanitize_text`, in source order; each turns every
      occurrence of one character into another. (The apostrophe is replaced
      twice in the source; the second time finds nothing left to do.) */
  const SanitizeRules: seq<(char, char)> := [
    ('?', ','), ('\'', ' '), ('\U{2019}', ' '), ('!', ','), ('-', ' '),
    ('(', ' '), (')', ' '), ('"', ' '), ('\'', ' '), (':', ' ')
  ]

  /** A chain of `text = text.replace(a, b)` statements, one per rule. */
  function ReplaceChain(text: string, rules: seq<(char, char)>): string
    decreases |rules|
  {
    if rules == [] then text
    else ReplaceChain(Replace(text, [rules[0].0], [rules[0].1]), rules[1..])
  }

  /** What a chain of one-character rules does to a single character. */
  function RulesOnChar(c: char, rules: seq<(char, char)>): char
    decreases |rules|
  {
    if rules == [] then c
    else RulesOnChar(if c == rules[0].0 then rules[0].1 else c, rules[1..])
  }

  /** A chain of one-character replacements acts on each character alone. */
  lemma {:induction false} ReplaceChainPointwise(text: string, rules: seq<(char, char)>)
    ensures |ReplaceChain(text, rules)| == |text|
    ensures forall k :: 0 <= k < |text| ==> ReplaceChain(text, rules)[k] == RulesOnChar(text[k], rules)
    decreases |rules|
  {
    if rules != [] {
      var (a, b) := rules[0];
      ReplaceChar(text, a, b);
      ReplaceChainPointwise(SubstChar(text, a, b), rules[1..]);
    }
  }

  lemma RulesOnCharPeel(c: char, a: char, b: char, rest: seq<(char, char)>)
    ensures RulesOnChar(c, [(a, b)] + rest) == RulesOnChar(if c == a then b else c, rest)
  {
    assert ([(a, b)] + rest)[1..] == rest;
  }

  /** The last five rules. */
  const LaterRules: seq<(char, char)> := [('(', ' '), (')', ' '), ('"', ' '), ('\'', ' '), (':', ' ')]

  /** A character after the first five rules. */
  function EarlierOnChar(c: char): char {
    var c1 := if c == '?' then ',' else c;
    var c2 := if c1 == '\'' then ' ' else c1;
    var c3 := if c2 == '\U{2019}' then ' ' else c2;
    var c4 := if c3 == '!' then ',' else c3;
    if c4 == '-' then ' ' else c4
  }

  /** A character after the last five rules. */
  function LaterOnChar(c: char): char {
    var c1 := if c == '(' then ' ' else c;
    var c2 := if c1 == ')' then ' ' else c1;
    var c3 := if c2 == '"' then ' ' else c2;
    var c4 := if c3 == '\'' then ' ' else c3;
    if c4 == ':' then ' ' else c4
  }

  lemma SanitizeRulesSplit()
    ensures SanitizeRules == [('?', ',')] + ([('\'', ' ')] + ([('\U{2019}', ' ')] + ([('!', ',')] + ([('-', ' ')] + LaterRules))))
  {
    var r0 := [('?', ',')] + ([('\'', ' ')] + ([('\U{2019}', ' ')] + ([('!', ',')] + ([('-', ' ')] + LaterRules))));
    assert |r0| == 10 == |SanitizeRules|;
    assert r0[0] == SanitizeRules[0];
    assert r0[1] == SanitizeRules[1];
    assert r0[2] == SanitizeRules[2];
    assert r0[3] == SanitizeRules[3];
    assert r0[4] == SanitizeRules[4];
    assert r0[5] == SanitizeRules[5];
    assert r0[6] == SanitizeRules[6];
    assert r0[7] == SanitizeRules[7];
    assert r0[8] == SanitizeRules[8];
    assert r0[9] == SanitizeRules[9];
  }

  lemma EarlierRulesOnChar(c: char, rest: seq<(char, char)>)
    ensures RulesOnChar(c, [('?', ',')] + ([('\'', ' ')] + ([('\U{2019}', ' ')] + ([('!', ',')] + ([('-', ' ')] + rest)))))
         == RulesOnChar(EarlierOnChar(c), rest)
  {
    var r4 := [('-', ' ')] + rest;
    var r3 := [('!', ',')] + r4;
    var r2 := [('\U{2019}', ' ')] + r3;
    var r1 := [('\'', ' ')] + r2;
    var c1 := if c == '?' then ',' else c;
    RulesOnCharPeel(c, '?', ',', r1);
    var c2 := if c1 == '\'' then ' ' else c1;
    RulesOnCharPeel(c1, '\'', ' ', r2);
    var c3 := if c2 == '\U{2019}' then ' ' else c2;
    RulesOnCharPeel(c2, '\U{2019}', ' ', r3);
    var c4 := if c3 == '!' then ',' else c3;
    RulesOnCharPeel(c3, '!', ',', r4);
    RulesOnCharPeel(c4, '-', ' ', rest);
  }

  lemma LaterRulesOnChar(c: char)
    ensures RulesOnChar(c, LaterRules) == LaterOnChar(c)
  {
    var r5: seq<(char, char)> := [];
    var r4 := [(':', ' ')] + r5;
    var r3 := [('\'', ' ')] + r4;
    var r2 := [('"', ' ')] + r3;
    var r1 := [(')', ' ')] + r2;
    assert LaterRules == [('(', ' ')] + r1;
    var c1 := if c == '(' then ' ' else c;
    RulesOnCharPeel(c, '(', ' ', r1);
    var c2 := if c1 == ')' then ' ' else c1;
    RulesOnCharPeel(c1, ')', ' ', r2);
    var c3 := if c2 == '"' then ' ' else c2;
    RulesOnCharPeel(c2, '"', ' ', r3);
    var c4 := if c3 == '\'' then ' ' else c3;
    RulesOnCharPeel(c3, '\'', ' ', r4);
    RulesOnCharPeel(c4, ':', ' ', r5);
  }

  /** The sanitiser's rules, applied to one character, are `SanitizeChar`. */
  lemma SanitizeRulesOnChar(c: char)
    ensures RulesOnChar(c, SanitizeRules) == SanitizeChar(c)
  {
    SanitizeRulesSplit();
    EarlierRulesOnChar(c, LaterRules);
    LaterRulesOnChar(EarlierOnChar(c));
    RulesComposed(c);
  }

  lemma RulesComposed(c: char)
    ensures LaterOnChar(EarlierOnChar(c)) == SanitizeChar(c)
  {
  }

  /** `sanitize_text`. */
  function SanitizeText(text: string): string {
    ReplaceChain(text, SanitizeRules)
  }

  /** The chain of replacements is one pass of `SanitizeChar` over the text. */
  lemma SanitizeIsCharMap(text: string)
    ensures |SanitizeText(text)| == |text|
    ensures forall k :: 0 <= k < |text| ==> SanitizeText(text)[k] == SanitizeChar(text[k])
  {
    ReplaceChainPointwise(text, SanitizeRules);
    forall k | 0 <= k < |text| ensures SanitizeText(text)[k] == SanitizeChar(text[k]) {
      SanitizeRulesOnChar(text[k]);
    }
  }

  /** The sanitised text has the input's length and none of the unspeakable
      characters; each position is the input's character unless that one was
      unspeakable. */
  lemma SanitizeSpec(text: string)
    ensures |SanitizeText(text)| == |text|
    ensures forall k :: 0 <= k < |text| ==> SanitizeText(text)[k] !in Unspeakable
    ensures forall k :: 0 <= k < |text| && text[k] !in Unspeakable ==> SanitizeText(text)[k] == text[k]
    ensures forall k :: 0 <= k < |text| && (text[k] == '?' || text[k] == '!') ==> SanitizeText(text)[k] == ','
    ensures forall k :: 0 <= k < |text| && text[k] in Unspeakable && text[k] != '?' && text[k] != '!' ==>
      SanitizeText(text)[k] == ' '
  {
    SanitizeIsCharMap(text);
  }

  /** Sanitising twice is the same as sanitising once. */
  lemma SanitizeIdempotent(text: string)
    ensures SanitizeText(SanitizeText(text)) == SanitizeText(text)
  {
    var once := SanitizeText(text);
    SanitizeIsCharMap(text);
    SanitizeIsCharMap(once);
  }

  /** One line of the parsed transcript: (text, speaker seed, sequence id). */
  datatype Utterance = Utterance(text: string, seed: int, sequenceId: nat)

  /** What `parse_transcript` makes of a single line. */
  datatype LineKind =
    | Skipped                              // not a `**` line, or an unregistered speaker
    | Spoken(text: string, seed: int)      // a kept line
    | MissingText(speaker: string)         // `line.split('**', 2)[2]` raises IndexError

  /** The `**`-delimited fields of a line that starts with `**`
      (`line.split('**', 2)`): the first is empty, the second names the speaker. */
  function BoldFields(line: string): (fields: seq<string>)
    requires StartsWith(line, "**")
    ensures 2 <= |fields| <= 3 && fields[0] == ""
  {
    assert OccursAt(line, "**", 0);
    assert line[..0] == "";
    var fields := SplitN(line, "**", 2);
    assert fields == [""] + SplitN(line[2..], "**", 1);
    fields
  }

  /** The speaker named by a `**` line: its second field with colons
      stripped from both ends. */
  function SpeakerOf(line: string): string
    requires StartsWith(line, "**")
  {
    Strip(BoldFields(line)[1], {':'})
  }

  /** One turn of the loop of `parse_transcript`, before the id is assigned. */
  function ClassifyLine(line: string): LineKind {
    if !StartsWith(line, "**") then Skipped
    else
      var fields := BoldFields(line);
      var speaker := SpeakerOf(line);
      if speaker !in SpeakerSeeds then Skipped
      else if |fields| < 3 then MissingText(speaker)
      else Spoken(SanitizeText(Strip(fields[2], Whitespace)), SpeakerSeeds[speaker])
  }

  /** The fields of a documented dialogue line `**Name:**text`, for a name
      without `*`. */
  lemma DialogueFields(name: string, text: string)
    requires '*' !in name
    ensures StartsWith("**" + name + ":**" + text, "**")
    ensures BoldFields("**" + name + ":**" + text) == ["", name + ":", text]
  {
    var line := "**" + name + ":**" + text;
    var head := name + ":";
    assert line[2..] == head + "**" + text;
    FirstOccurrenceAfter(head, "**", text);
    assert (head + "**" + text)[..|head|] == head;
    assert (head + "**" + text)[|head| + 2..] == text;
    assert SplitN(line[2..], "**", 1) == [head, text];
    assert StartsWith(line, "**");
  }

  /** Each registered name, followed by the colon of the dialogue form, is
      recovered by stripping colons. */
  lemma RegisteredNameStrip(name: string)
    requires name in SpeakerSeeds
    ensures '*' !in name
    ensures Strip(name + ":", {':'}) == name
  {
    assert name == "Justin" || name == "Emma" || name == "Danzai" || name == "Doudou";
    StripOneTrailing(name, ':');
  }

  /** A line of the documented dialogue form `**Name:**text` for a registered
      name parses to that name's seed and the sanitised, stripped text. */
  lemma DialogueLineParses(name: string, text: string)
    requires name in SpeakerSeeds
    ensures ClassifyLine("**" + name + ":**" + text) ==
            Spoken(SanitizeText(Strip(text, Whitespace)), SpeakerSeeds[name])
  {
    RegisteredNameStrip(name);
    DialogueFields(name, text);
  }

  /** A dialogue line `**Name:**text` whose name is not registered is
      dropped without an error, whatever its text. */
  lemma UnregisteredSpeakerSkipped(name: string, text: string)
    requires name !in SpeakerSeeds && '*' !in name
    requires name != [] && name[0] != ':' && name[|name| - 1] != ':'
    ensures ClassifyLine("**" + name + ":**" + text) == Skipped
  {
    DialogueFields(name, text);
    StripOneTrailing(name, ':');
  }

  /** A line naming a registered speaker without closing the bold marker
      (`**Emma`) is the one case that raises. */
  lemma UnclosedSpeakerFails(name: string)
    requires name in SpeakerSeeds && '*' !in name
    requires name != [] && name[0] != ':' && name[|name| - 1] != ':'
    ensures ClassifyLine("**" + name) == MissingText(name)
  {
    var line := "**" + name;
    assert StartsWith(line, "**");
    assert line[2..] == name;
    NotContainsFirstChar(name, "**");
    assert SplitN(name, "**", 1) == [name];
    assert OccursAt(line, "**", 0);
    assert SplitN(line, "**", 2) == [""] + SplitN(name, "**", 1);
    assert BoldFields(line) == ["", name];
    StripUnchanged(name, {':'});
  }

  /** A kept line carries a registered seed and a text with no unspeakable
      character. */
  lemma SpokenSanitized(line: string)
    requires ClassifyLine(line).Spoken?
    ensures ClassifyLine(line).seed in SpeakerSeeds.Values
    ensures forall k :: 0 <= k < |ClassifyLine(line).text| ==> ClassifyLine(line).text[k] !in Unspeakable
  {
    SanitizeSpec(Strip(BoldFields(line)[2], Whitespace));
  }

  /** Why `parse_transcript` stops. */
  datatype ParseError = MissingSpeechText(lineIndex: nat, speaker: string)

  /** Each line's classification, in order. */
  function Classified(lines: seq<string>): (kinds: seq<LineKind>)
    ensures |kinds| == |lines|
    ensures forall i :: 0 <= i < |lines| ==> kinds[i] == ClassifyLine(lines[i])
  {
    seq(|lines|, i requires 0 <= i < |lines| => ClassifyLine(lines[i]))
  }

  /** The loop of `parse_transcript` over classified lines: the utterances
      kept so far, numbered from 1 in the order they were kept, or the first
      line that raised. */
  function Number(kinds: seq<LineKind>): Result<seq<Utterance>, ParseError> {
    if kinds == [] then Ok([])
    else
      match Number(kinds[..|kinds| - 1])
      case Err(e) => Err(e)
      case Ok(us) =>
        match kinds[|kinds| - 1]
        case Skipped => Ok(us)
        case Spoken(text, seed) => Ok(us + [Utterance(text, seed, |us| + 1)])
        case MissingText(speaker) => Err(MissingSpeechText(|kinds| - 1, speaker))
  }

  /** `parse_transcript` applied to the lines of a transcript. */
  function ParseLines(lines: seq<string>): Result<seq<Utterance>, ParseError> {
    Number(Classified(lines))
  }

  /** The kept lines' (text, seed) pairs, in order: the reference the
      numbered result is checked against. */
  function Retained(kinds: seq<LineKind>): seq<(string, int)> {
    if kinds == [] then []
    else
      var init := Retained(kinds[..|kinds| - 1]);
      match kinds[|kinds| - 1]
      case Spoken(text, seed) => init + [(text, seed)]
      case _ => init
  }

  /** Numbering succeeds exactly when no line raises; the result is then the
      retained lines numbered 1..n in order. */
  lemma {:induction false} NumberSpec(kinds: seq<LineKind>)
    ensures Number(kinds).Ok? <==> forall i :: 0 <= i < |kinds| ==> !kinds[i].MissingText?
    ensures Number(kinds).Ok? ==>
      var us := Number(kinds).value;
      && |us| == |Retained(kinds)|
      && forall i :: 0 <= i < |us| ==>
           us[i] == Utterance(Retained(kinds)[i].0, Retained(kinds)[i].1, i + 1)
  {
    if kinds != [] {
      var init := kinds[..|kinds| - 1];
      NumberSpec(init);
      assert forall i :: 0 <= i < |init| ==> init[i] == kinds[i];
    }
  }

  /** On failure the error names the first line that raises. */
  lemma {:induction false} NumberFirstError(kinds: seq<LineKind>)
    requires Number(kinds).Err?
    ensures var k := Number(kinds).error.lineIndex;
      && k < |kinds|
      && kinds[k] == MissingText(Number(kinds).error.speaker)
      && forall j :: 0 <= j < k ==> !kinds[j].MissingText?
  {
    var init := kinds[..|kinds| - 1];
    assert forall i :: 0 <= i < |init| ==> init[i] == kinds[i];
    if Number(init).Err? {
      NumberFirstError(init);
    } else {
      NumberSpec(init);
    }
  }

  /** A (text, seed) pair fit for synthesis: a registered seed and no
      unspeakable character. */
  predicate Speakable(p: (string, int)) {
    p.1 in SpeakerSeeds.Values && forall k :: 0 <= k < |p.0| ==> p.0[k] !in Unspeakable
  }

  /** When every kept line is speakable, so is every retained pair. */
  lemma {:induction false} RetainedSpeakable(kinds: seq<LineKind>)
    requires forall j :: 0 <= j < |kinds| && kinds[j].Spoken? ==> Speakable((kinds[j].text, kinds[j].seed))
    ensures forall i :: 0 <= i < |Retained(kinds)| ==> Speakable(Retained(kinds)[i])
  {
    if kinds != [] {
      var init := kinds[..|kinds| - 1];
      assert forall j :: 0 <= j < |init| ==> init[j] == kinds[j];
      RetainedSpeakable(init);
    }
  }

  /** Every utterance of a successful parse has a registered seed and a
      sanitised text, and the ids run 1..n. */
  lemma ParsedUtterances(lines: seq<string>)
    requires ParseLines(lines).Ok?
    ensures forall i :: 0 <= i < |ParseLines(lines).value| ==>
      var u := ParseLines(lines).value[i];
      && u.sequenceId == i + 1
      && u.seed in SpeakerSeeds.Values
      && forall k :: 0 <= k < |u.text| ==> u.text[k] !in Unspeakable
  {
    var kinds := Classified(lines);
    NumberSpec(kinds);
    forall j | 0 <= j < |kinds| && kinds[j].Spoken?
      ensures Speakable((kinds[j].text, kinds[j].seed))
    {
      SpokenSanitized(lines[j]);
    }
    RetainedSpeakable(kinds);
  }

  /** A transcript in which no line starts with `**` yields no utterances. */
  lemma {:induction false} NoSpeakerLinesNoUtterances(lines: seq<string>)
    requires forall i :: 0 <= i < |lines| ==> !StartsWith(lines[i], "**")
    ensures ParseLines(lines) == Ok([])
  {
    if lines != [] {
      var init := lines[..|lines| - 1];
      NoSpeakerLinesNoUtterances(init);
      assert Classified(lines)[..|lines| - 1] == Classified(init);
    }
  }

  /** Once a prefix has raised, later lines do not matter. */
  lemma {:induction false} NumberErrPrefix(kinds: seq<LineKind>, n: nat)
    requires n <= |kinds| && Number(kinds[..n]).Err?
    ensures Number(kinds) == Number(kinds[..n])
    decreases |kinds|
  {
    if n < |kinds| {
      var init := kinds[..|kinds| - 1];
      assert init[..n] == kinds[..n];
      NumberErrPrefix(init, n);
    } else {
      assert kinds[..n] == kinds;
    }
  }

  /** One more line for the numbering loop. */
  lemma NumberStep(kinds: seq<LineKind>, i: nat, us: seq<Utterance>)
    requires i < |kinds| && Number(kinds[..i]) == Ok(us)
    ensures Number(kinds[..i + 1]) ==
      match kinds[i]
      case Skipped => Ok(us)
      case Spoken(text, seed) => Ok(us + [Utterance(text, seed, |us| + 1)])
      case MissingText(speaker) => Err(MissingSpeechText(i, speaker))
  {
    assert kinds[..i + 1][..i] == kinds[..i];
  }

  /** `parse_transcript`: split on newlines, classify each line, number the
      kept ones from 1; stop at the first line that raises. */
  method ParseTranscript(transcript: string) returns (r: Result<seq<Utterance>, ParseError>)
    ensures r == ParseLines(Split(transcript, "\n"))
  {
    var lines := Split(transcript, "\n");
    ghost var kinds := Classified(lines);
    var sequenceId := 1;
    var result: seq<Utterance> := [];
    for i := 0 to |lines|
      invariant Number(kinds[..i]) == Ok(result)
      invariant sequenceId == |result| + 1
    {
      NumberStep(kinds, i, result);
      var line := lines[i];
      assert kinds[i] == ClassifyLine(line);
      if StartsWith(line, "**") {
        var speaker := SpeakerOf(line);
        if speaker !in SpeakerSeeds {
          continue;
        }
        var fields := BoldFields(line);
        if |fields| < 3 {
          NumberErrPrefix(kinds, i + 1);
          return Err(MissingSpeechText(i, speaker));
        }
        var seed := SpeakerSeeds[speaker];
        var text := SanitizeText(Strip(fields[2], Whitespace));
        result := result + [Utterance(text, seed, sequenceId)];
        sequenceId := sequenceId + 1;
      }
    }
    assert kinds[..|lines|] == kinds;
    return Ok(result);
  }

  /** The empty transcript is one empty line and yields no utterances. */
  lemma EmptyTranscript()
    ensures ParseLines(Split("", "\n")) == Ok([])
  {
    assert Split("", "\n") == [""];
    NoSpeakerLinesNoUtterances([""]);
  }

  /** `generate_transcript_arxiv` removes line breaks from the background
      knowledge before it reaches the prompt. */
  function FlattenBackground(background: string): (r: string)
    ensures |r| == |background|
    ensures forall k :: 0 <= k < |r| ==> r[k] != '\n'
    ensures forall k :: 0 <= k < |r| && background[k] != '\n' ==> r[k] == background[k]
    ensures forall k :: 0 <= k < |r| && background[k] == '\n' ==> r[k] == ' '
  {
    ReplaceChar(background, '\n', ' ');
    Replace(background, "\n", " ")
  }
}
