/**
 * tts_gen.py: synthesise every utterance, concatenate the clips in order,
 * and lay out an SRT subtitle track whose entries follow the clips back to
 * back from a lead-in offset. ChatTTS itself is a parameter: a total function
 * from a synthesis request to the clip it produces.
 */
module Speech {
  import opened Wrappers
  import opened Strings

  /** Samples per second of every clip ChatTTS returns. */
  const SampleRate: nat := 24000

  /** The two speaker embeddings loaded at start-up (Justin's and Emma's). */
  datatype Embedding = JustinEmbedding | EmmaEmbedding

  /** What `produce_audio` is handed as a speaker: a name, or, as run.py
      hands it, the integer seed of the parsed transcript. */
  datatype SpeakerKey = Name(name: string) | Seed(seed: int)

  /** `speaker_embedding_map`. */
  const EmbeddingMap: map<SpeakerKey, Embedding> :=
    map[Name("Justin") := JustinEmbedding, Name("Emma") := EmmaEmbedding]

  /** `speaker_embedding_map.get(speaker_name, justin_spk)`: Emma's embedding
      for the name Emma and Justin's for anything else, seeds included. */
  function EmbeddingFor(key: SpeakerKey): (e: Embedding)
    ensures e == EmmaEmbedding <==> key == Name("Emma")
    ensures key.Seed? ==> e == JustinEmbedding
  {
    if key in EmbeddingMap then EmbeddingMap[key] else JustinEmbedding
  }

  /** The decoding settings of one ChatTTS call. */
  datatype InferParams = InferParams(
    temperature: real, topP: real, topK: int,
    speedPrompt: string, refinePrompt: string,
    textSeed: int, refineText: bool)

  /** The settings `produce_audio_data` uses for every utterance, with
      `generate_audio`'s defaults for the two prompts. */
  const FixedParams: InferParams :=
    InferParams(0.7, 0.3, 20, "[speed_1]", "[oral_1][laugh_0][break_5]", 43, true)

  /** One request to the speech backend: refine the text, then synthesise it
      with the given voice. */
  datatype Request = Request(text: string, embedding: Embedding, params: InferParams)

  /** What the backend returns: the waveform and the refined text. */
  datatype Clip<S> = Clip(samples: seq<S>, refined: string)

  /** `produce_audio_data`'s result: audio, refined text, duration in seconds. */
  datatype ClipData<S> = ClipData(audio: seq<S>, refined: string, duration: real)

  /** `produce_audio_data`: one backend call with the fixed settings and the
      speaker's embedding; the duration is the sample count over the rate. */
  function ProduceAudioData<S>(text: string, speaker: SpeakerKey, tts: Request -> Clip<S>): (d: ClipData<S>)
    ensures d.duration >= 0.0
    ensures d.duration * SampleRate as real == |d.audio| as real
    ensures tts(Request(text, EmbeddingFor(speaker), FixedParams)) == Clip(d.audio, d.refined)
  {
    var clip := tts(Request(text, EmbeddingFor(speaker), FixedParams));
    ClipData(clip.samples, clip.refined, |clip.samples| as real / SampleRate as real)
  }

  // ---------------------------------------------------------------------
  // Time strings

  /** Python's `x // y` on floats, for a positive divisor. */
  function FloorDiv(x: real, y: real): real
    requires y > 0.0
  {
    (x / y).Floor as real
  }

  /** Python's `x % y` on floats, for a positive divisor: never negative. */
  function FloatMod(x: real, y: real): real
    requires y > 0.0
  {
    x - y * FloorDiv(x, y)
  }

  /** Python's `int(x)` on a float: truncation toward zero. */
  function Trunc(x: real): int {
    if x >= 0.0 then x.Floor else -((-x).Floor)
  }

  /** The four fields of an SRT time, as `produce_audio` computes them. */
  datatype TimeFields = TimeFields(hours: int, minutes: int, seconds: int, millis: int)

  function Fields(t: real): TimeFields {
    TimeFields(
      Trunc(FloorDiv(t, 3600.0)),
      Trunc(FloatMod(FloorDiv(t, 60.0), 60.0)),
      Trunc(FloatMod(t, 60.0)),
      Trunc(FloatMod(t * 1000.0, 1000.0)))
  }

  /** `"{:02d}:{:02d}:{:02d},{:03d}".format(...)` of those fields. */
  function FormatTime(t: real): string {
    var f := Fields(t);
    FormatInt(f.hours, 2) + ":" + FormatInt(f.minutes, 2) + ":" + FormatInt(f.seconds, 2) + "," + FormatInt(f.millis, 3)
  }

  lemma MulLe(y: real, a: real, b: real)
    requires y > 0.0 && a <= b
    ensures y * a <= y * b
  {
    assert y * b - y * a == y * (b - a);
  }

  lemma MulLt(y: real, a: real, b: real)
    requires y > 0.0 && a < b
    ensures y * a < y * b
  {
    assert y * b - y * a == y * (b - a);
  }

  lemma DivLe(x: real, y: real, lo: real)
    requires y > 0.0 && y * lo <= x
    ensures lo <= x / y
  {
    var z := x / y;
    assert x == y * z;
    if z < lo {
      MulLt(y, z, lo);
    }
  }

  lemma DivLt(x: real, y: real, hi: real)
    requires y > 0.0 && x < y * hi
    ensures x / y < hi
  {
    var z := x / y;
    assert x == y * z;
    if z >= hi {
      MulLe(y, hi, z);
    }
  }

  /** Python's float `%` by a positive divisor lands in [0, y). */
  lemma FloatModRange(x: real, y: real)
    requires y > 0.0
    ensures 0.0 <= FloatMod(x, y) < y
  {
    var z := x / y;
    var q := z.Floor as real;
    assert y * z == x;
    MulLe(y, q, z);
    assert z < q + 1.0;
    MulLt(y, z, q + 1.0);
    assert x < y * (q + 1.0);
    assert y * (q + 1.0) == y * q + y;
    assert x - y * q < y;
    assert FloatMod(x, y) == x - y * q;
  }

  /** floor(x / n) == floor(x) div n, for a positive integer `n`. */
  lemma FloorDivOfFloor(x: real, n: int)
    requires n > 0
    ensures (x / n as real).Floor == x.Floor / n
  {
    var f := x.Floor;
    var q := f / n;
    assert n * q <= f < n * q + n;
    assert (n as real) * (q as real) == (n * q) as real;
    assert (n as real) * ((q + 1) as real) == (n * q + n) as real;
    DivLe(x, n as real, q as real);
    DivLt(x, n as real, (q + 1) as real);
  }

  /** `x % n` then `int()` is the floor of `x`, mod `n`. */
  lemma FloatModOfFloor(x: real, n: int)
    requires n > 0
    ensures Trunc(FloatMod(x, n as real)) == x.Floor % n
  {
    FloatModRange(x, n as real);
    FloorDivOfFloor(x, n);
    var f := x.Floor;
    var q := f / n;
    assert (n as real) * (q as real) == (n * q) as real;
    var m := x - (n * q) as real;
    assert FloatMod(x, n as real) == m;
    assert (f - n * q) as real <= m < (f - n * q) as real + 1.0;
    assert f % n == f - n * q;
  }

  /** Minutes and seconds are in [0, 60) and milliseconds in [0, 1000), for
      every time, negative ones included. */
  lemma FieldsBounded(t: real)
    ensures 0 <= Fields(t).minutes < 60
    ensures 0 <= Fields(t).seconds < 60
    ensures 0 <= Fields(t).millis < 1000
  {
    FloatModRange(FloorDiv(t, 60.0), 60.0);
    FloatModRange(t, 60.0);
    FloatModRange(t * 1000.0, 1000.0);
  }

  /** For a time that is not negative the fields are floor(t/3600),
      floor(t/60) mod 60, floor(t) mod 60 and floor(1000 t) mod 1000. */
  lemma FieldsOfNonNegative(t: real)
    requires t >= 0.0
    ensures Fields(t).hours == (t / 3600.0).Floor
    ensures Fields(t).minutes == (t / 60.0).Floor % 60
    ensures Fields(t).seconds == t.Floor % 60
    ensures Fields(t).millis == (t * 1000.0).Floor % 1000
  {
    DivLe(t, 3600.0, 0.0);
    FloatModOfFloor(FloorDiv(t, 60.0), 60);
    FloatModOfFloor(t, 60);
    FloatModOfFloor(t * 1000.0, 1000);
  }

  lemma DivDiv(s: int)
    requires s >= 0
    ensures s / 3600 == (s / 60) / 60
  {
    var m := s / 60;
    var h := m / 60;
    assert s == 60 * m + s % 60;
    assert m == 60 * h + m % 60;
    assert s == 3600 * h + (60 * (m % 60) + s % 60);
    assert 0 <= 60 * (m % 60) + s % 60 < 3600;
  }

  /** The fields of a non-negative time spell out its whole milliseconds. */
  lemma FieldsAreMilliseconds(t: real)
    requires t >= 0.0
    ensures var f := Fields(t);
      f.hours * 3600000 + f.minutes * 60000 + f.seconds * 1000 + f.millis == (t * 1000.0).Floor
  {
    FieldsOfNonNegative(t);
    var ms := (t * 1000.0).Floor;
    FloorDivOfFloor(t * 1000.0, 1000);
    assert t * 1000.0 / 1000.0 == t;
    var s := t.Floor;
    assert s == ms / 1000;
    assert s >= 0;
    FloorDivOfFloor(t, 60);
    FloorDivOfFloor(t, 3600);
    var m := s / 60;
    var h := s / 3600;
    DivDiv(s);
    assert ms == 1000 * s + ms % 1000;
    assert s == 60 * m + s % 60;
    assert m == 60 * h + m % 60;
  }

  /** The number of milliseconds an `HH:MM:SS,mmm` string denotes. */
  function Milliseconds(s: string): int
    requires |s| == 12 && IsDigits(s[0..2]) && IsDigits(s[3..5]) && IsDigits(s[6..8]) && IsDigits(s[9..12])
  {
    DigitsValue(s[0..2]) * 3600000 + DigitsValue(s[3..5]) * 60000 + DigitsValue(s[6..8]) * 1000 + DigitsValue(s[9..12])
  }

  /** Four fields of widths 2, 2, 2 and 3 joined by `:`, `:` and `,` sit at
      fixed positions. */
  lemma TimeLayout(h: string, m: string, sec: string, ms: string)
    requires |h| == 2 && |m| == 2 && |sec| == 2 && |ms| == 3
    ensures var s := h + ":" + m + ":" + sec + "," + ms;
      && |s| == 12 && s[2] == ':' && s[5] == ':' && s[8] == ','
      && s[0..2] == h && s[3..5] == m && s[6..8] == sec && s[9..12] == ms
  {
    var s := h + ":" + m + ":" + sec + "," + ms;
    assert s[0..2] == h;
    assert s[3..5] == m;
    assert s[6..8] == sec;
    assert s[9..12] == ms;
  }

  /** Below 100 hours, a formatted time is exactly `HH:MM:SS,mmm`, and reading
      it back gives floor(1000 t): the string loses only what lies below a
      millisecond. */
  lemma FormatTimeRoundTrip(t: real)
    requires 0.0 <= t < 360000.0
    ensures var s := FormatTime(t);
      && |s| == 12 && s[2] == ':' && s[5] == ':' && s[8] == ','
      && IsDigits(s[0..2]) && IsDigits(s[3..5]) && IsDigits(s[6..8]) && IsDigits(s[9..12])
      && Milliseconds(s) == (t * 1000.0).Floor
  {
    var f := Fields(t);
    FieldsBounded(t);
    FieldsOfNonNegative(t);
    FieldsAreMilliseconds(t);
    assert 0 <= f.hours < 100 by {
      assert (t / 3600.0) < 100.0;
    }
    assert Pow10(2) == 100 && Pow10(3) == 1000;
    FormatIntFixed(f.hours, 2);
    FormatIntFixed(f.minutes, 2);
    FormatIntFixed(f.seconds, 2);
    FormatIntFixed(f.millis, 3);
    var h, m, sec, ms := FormatInt(f.hours, 2), FormatInt(f.minutes, 2), FormatInt(f.seconds, 2), FormatInt(f.millis, 3);
    TimeLayout(h, m, sec, ms);
    assert FormatTime(t) == h + ":" + m + ":" + sec + "," + ms;
  }

  /** The time `00:00:00,000`, which the lead-in entry writes out directly. */
  lemma ZeroTime()
    ensures FormatTime(0.0) == "00:00:00,000"
  {
    assert Fields(0.0) == TimeFields(0, 0, 0, 0);
  }

  // ---------------------------------------------------------------------
  // The timeline

  /** One caption's time span in seconds. */
  datatype Segment = Segment(start: real, end: real)

  function Sum(ds: seq<real>): real {
    if ds == [] then 0.0 else Sum(ds[..|ds| - 1]) + ds[|ds| - 1]
  }

  /** The running-sum timeline of `produce_audio`: each clip starts where the
      previous one ended, the first at `offset`. */
  function Timeline(offset: real, ds: seq<real>): (segs: seq<Segment>)
    ensures |segs| == |ds|
  {
    if ds == [] then []
    else
      var init := ds[..|ds| - 1];
      Timeline(offset, init) + [Segment(offset + Sum(init), offset + Sum(ds))]
  }

  /** The timeline is contiguous: it starts at the offset, every segment is
      as long as its clip and starts where the previous one ended, and the
      last ends at the offset plus the total duration. */
  lemma {:induction false} TimelineSpec(offset: real, ds: seq<real>)
    ensures var segs := Timeline(offset, ds);
      && (|ds| > 0 ==> segs[0].start == offset && segs[|ds| - 1].end == offset + Sum(ds))
      && (forall i :: 0 <= i < |ds| ==> segs[i].end == segs[i].start + ds[i])
      && (forall i :: 0 <= i < |ds| - 1 ==> segs[i].end == segs[i + 1].start)
  {
    if ds != [] {
      var init := ds[..|ds| - 1];
      TimelineSpec(offset, init);
      assert forall i :: 0 <= i < |init| ==> init[i] == ds[i];
      if init == [] {
        assert Sum(init) == 0.0;
      }
    }
  }

  /** Segment `i` runs from the offset plus the durations before it to the
      offset plus the durations up to and including it. */
  lemma {:induction false} TimelineAt(offset: real, ds: seq<real>, i: nat)
    requires i < |ds|
    ensures Timeline(offset, ds)[i] == Segment(offset + Sum(ds[..i]), offset + Sum(ds[..i + 1]))
  {
    var init := ds[..|ds| - 1];
    if i < |ds| - 1 {
      TimelineAt(offset, init, i);
      assert init[..i] == ds[..i];
      assert init[..i + 1] == ds[..i + 1];
    } else {
      assert ds[..i + 1] == ds;
    }
  }

  /** With clips of non-negative length the timeline never runs backwards. */
  lemma {:induction false} TimelineMonotone(offset: real, ds: seq<real>)
    requires forall i :: 0 <= i < |ds| ==> ds[i] >= 0.0
    ensures forall i :: 0 <= i < |ds| ==> offset <= Timeline(offset, ds)[i].start <= Timeline(offset, ds)[i].end
  {
    if ds != [] {
      var init := ds[..|ds| - 1];
      TimelineMonotone(offset, init);
      SumNonNegative(init);
    }
  }

  lemma {:induction false} SumNonNegative(ds: seq<real>)
    requires forall i :: 0 <= i < |ds| ==> ds[i] >= 0.0
    ensures Sum(ds) >= 0.0
  {
    if ds != [] {
      SumNonNegative(ds[..|ds| - 1]);
    }
  }

  // ---------------------------------------------------------------------
  // Subtitles

  /** One SRT entry before numbering: its time span and its caption. The
      span is formatted as `start --> end` when the entry is written. */
  datatype Entry = Entry(span: Segment, caption: string)

  const MusicCaption: string := "[AI GENERATED MUSIC]"

  function RangeText(seg: Segment): string {
    FormatTime(seg.start) + " --> " + FormatTime(seg.end)
  }

  /** The music entry written before the first utterance when the offset is
      positive. */
  function LeadIn(offset: real): seq<Entry> {
    if offset > 0.0 then [Entry(Segment(0.0, offset), MusicCaption)] else []
  }

  /** The lead-in's range is written `00:00:00,000 --> ` and the offset. */
  lemma LeadInText(offset: real)
    requires offset > 0.0
    ensures RangeText(LeadIn(offset)[0].span) == "00:00:00,000" + " --> " + FormatTime(offset)
  {
    ZeroTime();
  }

  /** One entry per segment, captioned with the matching text. */
  function Captioned(segs: seq<Segment>, texts: seq<string>): (es: seq<Entry>)
    requires |segs| == |texts|
    ensures |es| == |segs|
  {
    if segs == [] then []
    else Captioned(segs[..|segs| - 1], texts[..|texts| - 1]) + [Entry(segs[|segs| - 1], texts[|texts| - 1])]
  }

  lemma {:induction false} CaptionedAt(segs: seq<Segment>, texts: seq<string>, i: nat)
    requires |segs| == |texts| && i < |segs|
    ensures Captioned(segs, texts)[i] == Entry(segs[i], texts[i])
  {
    if i < |segs| - 1 {
      CaptionedAt(segs[..|segs| - 1], texts[..|texts| - 1], i);
    }
  }

  /** `srt_list`: the lead-in, then one entry per clip, captioned with the
      utterance texts given to the backend. */
  function SrtEntries(offset: real, texts: seq<string>, ds: seq<real>): seq<Entry>
    requires |texts| == |ds|
  {
    LeadIn(offset) + Captioned(Timeline(offset, ds), texts)
  }

  /** There is one entry per utterance plus the lead-in exactly when the
      offset is positive; the lead-in spans zero to the offset; utterance
      entries are captioned in transcript order and timed by the timeline. */
  lemma SrtEntriesSpec(offset: real, texts: seq<string>, ds: seq<real>)
    requires |texts| == |ds|
    ensures var es := SrtEntries(offset, texts, ds);
      var lead := if offset > 0.0 then 1 else 0;
      && |es| == |texts| + lead
      && (offset > 0.0 ==> es[0] == Entry(Segment(0.0, offset), MusicCaption))
      && forall i :: 0 <= i < |texts| ==>
           es[lead + i] == Entry(Timeline(offset, ds)[i], texts[i])
  {
    var es := SrtEntries(offset, texts, ds);
    var lead := if offset > 0.0 then 1 else 0;
    var segs := Timeline(offset, ds);
    forall i | 0 <= i < |texts|
      ensures es[lead + i] == Entry(segs[i], texts[i])
    {
      CaptionedAt(segs, texts, i);
    }
  }

  /** An entry as `srt_list` holds it: the formatted time range and the
      caption. */
  datatype SrtRow = SrtRow(timeStr: string, text: string)

  function Rows(es: seq<Entry>): (rows: seq<SrtRow>)
    ensures |rows| == |es|
  {
    seq(|es|, i requires 0 <= i < |es| => SrtRow(RangeText(es[i].span), es[i].caption))
  }

  /** How row `index` (1-based) is written to the `.srt` file. */
  function Block(index: nat, row: SrtRow): string {
    NatToString(index) + "\n" + row.timeStr + "\n" + row.text + "\n\n"
  }

  /** The blocks of a subtitle file, numbered from 1 in entry order. */
  function Blocks(rows: seq<SrtRow>): (bs: seq<string>)
    ensures |bs| == |rows|
  {
    seq(|rows|, i requires 0 <= i < |rows| => Block(i + 1, rows[i]))
  }

  /** Block `i` of a subtitle file opens with the decimal index `i + 1` on
      its own line, then the time range, and closes with the caption and a
      blank line. */
  lemma BlockNumbered(rows: seq<SrtRow>, i: nat)
    requires i < |rows|
    ensures var b := Blocks(rows)[i]; var d := NatToString(i + 1);
      && IsDigits(d) && DigitsValue(d) == i + 1
      && StartsWith(b, d + "\n" + rows[i].timeStr + "\n")
      && EndsWith(b, "\n" + rows[i].text + "\n\n")
  {
    NatToStringValue(i + 1);
    var b := Blocks(rows)[i];
    var d := NatToString(i + 1);
    assert b == (d + "\n" + rows[i].timeStr + "\n") + rows[i].text + "\n\n";
    assert b == (d + "\n" + rows[i].timeStr) + ("\n" + rows[i].text + "\n\n");
  }

  /** The text of the subtitle file. */
  function SrtText(rows: seq<SrtRow>): string {
    Concat(Blocks(rows))
  }

  /** The refined-text log: one line per utterance, in order. */
  function RefinedLog(refined: seq<string>): string {
    Concat(seq(|refined|, i requires 0 <= i < |refined| => refined[i] + "\n"))
  }

  // ---------------------------------------------------------------------
  // produce_audio

  /** One element of the transcript `produce_audio` receives. */
  datatype Line = Line(text: string, speaker: SpeakerKey, sequenceId: int)

  /** Everything `produce_audio` produces: the concatenated waveform, the
      subtitle file, the refined-text log and the refined texts it returns,
      with the three file paths it writes them to. */
  datatype Episode<S> = Episode(
    audio: seq<S>, srt: string, refinedLog: string, refined: seq<string>,
    audioPath: string, srtPath: string, logPath: string)

  /** `produce_audio` raises on an empty transcript, when `zip(*audio_data)`
      has nothing to unpack. */
  datatype AudioError = EmptyTranscript

  /** The clip data of every line, in transcript order. */
  function ClipsOf<S>(transcript: seq<Line>, tts: Request -> Clip<S>): (cs: seq<ClipData<S>>)
    ensures |cs| == |transcript|
    ensures forall i :: 0 <= i < |cs| ==> cs[i] == ProduceAudioData(transcript[i].text, transcript[i].speaker, tts)
  {
    seq(|transcript|, i requires 0 <= i < |transcript| => ProduceAudioData(transcript[i].text, transcript[i].speaker, tts))
  }

  function Texts(transcript: seq<Line>): (ts: seq<string>)
    ensures |ts| == |transcript| && forall i :: 0 <= i < |ts| ==> ts[i] == transcript[i].text
  {
    seq(|transcript|, i requires 0 <= i < |transcript| => transcript[i].text)
  }

  function Durations<S>(cs: seq<ClipData<S>>): (ds: seq<real>)
    ensures |ds| == |cs| && forall i :: 0 <= i < |ds| ==> ds[i] == cs[i].duration
  {
    seq(|cs|, i requires 0 <= i < |cs| => cs[i].duration)
  }

  function Audios<S>(cs: seq<ClipData<S>>): (xs: seq<seq<S>>)
    ensures |xs| == |cs| && forall i :: 0 <= i < |xs| ==> xs[i] == cs[i].audio
  {
    seq(|cs|, i requires 0 <= i < |cs| => cs[i].audio)
  }

  function RefinedTexts<S>(cs: seq<ClipData<S>>): (rs: seq<string>)
    ensures |rs| == |cs| && forall i :: 0 <= i < |rs| ==> rs[i] == cs[i].refined
  {
    seq(|cs|, i requires 0 <= i < |cs| => cs[i].refined)
  }

  /** What `produce_audio` writes and returns for a non-empty transcript. */
  function EpisodeOf<S>(transcript: seq<Line>, audioFilename: string, offset: real, tts: Request -> Clip<S>): Episode<S> {
    var cs := ClipsOf(transcript, tts);
    Episode(
      Concat(Audios(cs)),
      SrtText(Rows(SrtEntries(offset, Texts(transcript), Durations(cs)))),
      RefinedLog(RefinedTexts(cs)),
      RefinedTexts(cs),
      "audio/" + audioFilename,
      "audio/subtitle_" + audioFilename + ".srt",
      "audio/refined_text_" + audioFilename + ".txt")
  }

  /** The three files are named after the audio file name. */
  lemma EpisodePaths<S>(transcript: seq<Line>, audioFilename: string, offset: real, tts: Request -> Clip<S>)
    ensures var ep := EpisodeOf(transcript, audioFilename, offset, tts);
      && ep.audioPath == "audio/" + audioFilename
      && ep.srtPath == "audio/subtitle_" + audioFilename + ".srt"
      && ep.logPath == "audio/refined_text_" + audioFilename + ".txt"
  {
  }

  /** The first loop of `produce_audio`: one backend call per line, in
      transcript order. */
  method SynthesizeAll<S>(transcript: seq<Line>, tts: Request -> Clip<S>) returns (audioData: seq<ClipData<S>>)
    ensures audioData == ClipsOf(transcript, tts)
  {
    audioData := [];
    for i := 0 to |transcript|
      invariant audioData == ClipsOf(transcript[..i], tts)
    {
      var data := ProduceAudioData(transcript[i].text, transcript[i].speaker, tts);
      audioData := audioData + [data];
    }
    assert transcript[..|transcript|] == transcript;
  }

  /** The subtitle entries: the lead-in when the offset is positive, then
      the utterance entries. */
  method BuildEntries(offset: real, transcriptText: seq<string>, durations: seq<real>) returns (srtList: seq<Entry>)
    requires |transcriptText| == |durations|
    ensures srtList == SrtEntries(offset, transcriptText, durations)
  {
    srtList := [];
    if offset > 0.0 {
      srtList := srtList + [Entry(Segment(0.0, offset), MusicCaption)];
    }
    var captioned := CaptionAll(offset, transcriptText, durations);
    srtList := srtList + captioned;
  }

  /** One entry per utterance, timed by a running start time that begins at
      the offset and advances by each clip's duration. */
  method CaptionAll(offset: real, transcriptText: seq<string>, durations: seq<real>) returns (entries: seq<Entry>)
    requires |transcriptText| == |durations|
    ensures entries == Captioned(Timeline(offset, durations), transcriptText)
  {
    ghost var segs := Timeline(offset, durations);
    entries := [];
    var startTime := offset;
    for i := 0 to |transcriptText|
      invariant entries == Captioned(segs[..i], transcriptText[..i])
      invariant startTime == offset + Sum(durations[..i])
    {
      var endTime := startTime + durations[i];
      TimelineAt(offset, durations, i);
      assert durations[..i + 1][..i] == durations[..i];
      assert segs[..i + 1][..i] == segs[..i];
      assert transcriptText[..i + 1][..i] == transcriptText[..i];
      entries := entries + [Entry(Segment(startTime, endTime), transcriptText[i])];
      startTime := endTime;
    }
    assert segs[..|transcriptText|] == segs;
    assert transcriptText[..|transcriptText|] == transcriptText;
  }

  /** Writing the subtitle file: index, time range, caption, blank line. */
  method WriteSrt(srtList: seq<SrtRow>) returns (srt: string)
    ensures srt == SrtText(srtList)
  {
    ghost var blocks := Blocks(srtList);
    srt := "";
    for i := 0 to |srtList|
      invariant srt == Concat(blocks[..i])
    {
      ConcatPrefixStep(blocks, i);
      var block := NatToString(i + 1) + "\n";
      block := block + (srtList[i].timeStr + "\n");
      block := block + (srtList[i].text + "\n\n");
      assert block == blocks[i];
      srt := srt + block;
    }
    assert blocks[..|srtList|] == blocks;
  }

  /** Writing the refined-text log, one line per utterance. */
  method WriteLog(refinedTextAll: seq<string>) returns (log: string)
    ensures log == RefinedLog(refinedTextAll)
  {
    ghost var lines := seq(|refinedTextAll|, i requires 0 <= i < |refinedTextAll| => refinedTextAll[i] + "\n");
    log := "";
    for i := 0 to |refinedTextAll|
      invariant log == Concat(lines[..i])
    {
      ConcatPrefixStep(lines, i);
      log := log + (refinedTextAll[i] + "\n");
    }
    assert lines[..|refinedTextAll|] == lines;
  }

  /** `produce_audio`: synthesise each line in order, concatenate the clips,
      build the subtitle entries by running sum from `offset`, then write the
      subtitle file and the refined-text log. */
  method ProduceAudio<S>(transcript: seq<Line>, audioFilename: string, offset: real, tts: Request -> Clip<S>)
    returns (r: Result<Episode<S>, AudioError>)
    ensures r.Err? <==> transcript == []
    ensures r.Ok? ==> r.value == EpisodeOf(transcript, audioFilename, offset, tts)
  {
    var transcriptText := Texts(transcript);
    var audioData := SynthesizeAll(transcript, tts);
    if audioData == [] {
      return Err(EmptyTranscript);
    }
    var audioDataAll := Concat(Audios(audioData));
    var durations := Durations(audioData);
    var refinedTextAll := RefinedTexts(audioData);
    var srtList := BuildEntries(offset, transcriptText, durations);
    var srt := WriteSrt(Rows(srtList));
    var log := WriteLog(refinedTextAll);
    return Ok(Episode(audioDataAll, srt, log, refinedTextAll,
      "audio/" + audioFilename,
      "audio/subtitle_" + audioFilename + ".srt",
      "audio/refined_text_" + audioFilename + ".txt"));
  }

  // ---------------------------------------------------------------------
  // Properties of an episode

  /** The subtitle track ends exactly where the concatenated audio does: at
      the offset plus the total sample count over the sample rate. */
  lemma AudioMatchesTimeline<S>(transcript: seq<Line>, offset: real, tts: Request -> Clip<S>)
    requires transcript != []
    ensures var cs := ClipsOf(transcript, tts);
      Timeline(offset, Durations(cs))[|transcript| - 1].end
        == offset + |Concat(Audios(cs))| as real / SampleRate as real
  {
    var cs := ClipsOf(transcript, tts);
    ConcatLength(Audios(cs));
    TimelineSpec(offset, Durations(cs));
    DurationsSum(cs);
  }

  /** The total duration is the total sample count over the rate. */
  lemma {:induction false} DurationsSum<S>(cs: seq<ClipData<S>>)
    requires forall i :: 0 <= i < |cs| ==> cs[i].duration * SampleRate as real == |cs[i].audio| as real
    ensures Sum(Durations(cs)) * SampleRate as real == TotalLength(Audios(cs)) as real
  {
    if cs != [] {
      var init := cs[..|cs| - 1];
      DurationsSum(init);
      assert Durations(cs)[..|cs| - 1] == Durations(init);
      assert Audios(cs)[..|cs| - 1] == Audios(init);
    }
  }

  /** The backend request `produce_audio` makes for each line, in order. */
  function Requests(transcript: seq<Line>): (rs: seq<Request>)
    ensures |rs| == |transcript|
    ensures forall i :: 0 <= i < |rs| ==> rs[i].text == transcript[i].text && rs[i].params == FixedParams
  {
    seq(|transcript|, i requires 0 <= i < |transcript| =>
      Request(transcript[i].text, EmbeddingFor(transcript[i].speaker), FixedParams))
  }

  /** An episode is made of the backend's answers to its requests: the audio
      is their waveforms concatenated in order, and the refined texts are
      theirs, in the same order. */
  lemma EpisodeFromRequests<S>(transcript: seq<Line>, audioFilename: string, offset: real, tts: Request -> Clip<S>)
    ensures var ep := EpisodeOf(transcript, audioFilename, offset, tts);
      var rs := Requests(transcript);
      && ep.audio == Concat(seq(|rs|, i requires 0 <= i < |rs| => tts(rs[i]).samples))
      && |ep.refined| == |rs|
      && forall i :: 0 <= i < |rs| ==> ep.refined[i] == tts(rs[i]).refined
  {
    var cs := ClipsOf(transcript, tts);
    var rs := Requests(transcript);
    forall i | 0 <= i < |rs|
      ensures tts(rs[i]) == Clip(cs[i].audio, cs[i].refined)
    {
      assert rs[i] == Request(transcript[i].text, EmbeddingFor(transcript[i].speaker), FixedParams);
    }
    assert Audios(cs) == seq(|rs|, i requires 0 <= i < |rs| => tts(rs[i]).samples);
  }
}
