/**
 * run.py's driver: generate (or reload) the episode script for an arXiv
 * paper, parse it into utterances, and hand those to speech synthesis under
 * the paper's id. The `transcript` directory is a map from path to stored
 * summary record; the YAML configuration is the list of parameters.
 */
module Pipeline {
  import opened Wrappers
  import opened Strings
  import opened Llm
  import opened ArxivReader
  import opened Summarizer
  import Transcript
  import Speech

  // ---------------------------------------------------------------------
  // generate_transcript_arxiv

  /** Why the driver stops: the summary fails, the URL has no arXiv id, no
      script is stored for a cached run, the script does not parse, or it
      has no utterance for `produce_audio` to unpack. */
  datatype PipelineError =
    | SummaryFailed(cause: SummaryError)
    | InvalidUrl
    | NoCachedTranscript(path: string)
    | ParseFailed(error: Transcript.ParseError)
    | NoUtterances

  /** The script (or the error), the `transcript` directory afterwards, and
      the model calls made. */
  datatype TranscriptRun = TranscriptRun(result: Result<string, PipelineError>, store: map<string, Summary>, calls: seq<Call>)

  function TranscriptPath(id: string): string {
    "transcript/" + id + ".json"
  }

  /** `generate_transcript_arxiv`: without the cache, summarise the paper
      afresh (the paper cache is bypassed too) and store the record under its
      id; with it, reload the stored record for the URL's id. Either way the
      script is the record's `summary`. */
  function GenerateTranscriptArxiv(url: string, episode: string, useCache: bool, promptName: string, background: string,
                                   store: map<string, Summary>, cache: map<string, ArxivRecord>,
                                   fetch: string -> string, parse: string -> AbsPage,
                                   prompts: map<string, string>, llm: Call -> seq<string>): (r: TranscriptRun)
    ensures |r.calls| <= 3
    ensures r.result.Err? ==> r.store == store
    ensures useCache ==>
      && r.calls == [] && r.store == store
      && (r.result.Ok? <==> GetArxivId(url).Some? && TranscriptPath(GetArxivId(url).value) in store)
      && (r.result.Ok? ==> r.result.value == store[TranscriptPath(GetArxivId(url).value)].summary)
    ensures !useCache ==>
      var o := GenerateSummaryArxiv(url, episode, false, promptName, Transcript.FlattenBackground(background),
                                    cache, fetch, parse, prompts, llm);
      && r.calls == o.calls
      && (r.result.Ok? <==> o.result.Ok?)
      && (r.result.Err? ==> r.result.error == SummaryFailed(o.result.error))
      && (r.result.Ok? ==>
            && GetArxivId(url).Some?
            && r.result.value == o.result.value.summary
            && r.store == store[TranscriptPath(GetArxivId(url).value) := o.result.value])
  {
    var bk := Transcript.FlattenBackground(background);
    if !useCache then
      var o := GenerateSummaryArxiv(url, episode, false, promptName, bk, cache, fetch, parse, prompts, llm);
      match o.result
      case Err(e) => TranscriptRun(Err(SummaryFailed(e)), store, o.calls)
      case Ok(d) =>
        FreshRecord(url, cache, fetch, parse);
        TranscriptRun(Ok(d.summary), store[TranscriptPath(d.arxivId) := d], o.calls)
    else
      match GetArxivId(url)
      case None => TranscriptRun(Err(InvalidUrl), store, [])
      case Some(id) =>
        if TranscriptPath(id) in store then TranscriptRun(Ok(store[TranscriptPath(id)].summary), store, [])
        else TranscriptRun(Err(NoCachedTranscript(TranscriptPath(id))), store, [])
  }

  /** A fresh run does not depend on what the paper cache holds. */
  lemma FreshRunIgnoresPaperCache(url: string, episode: string, promptName: string, background: string,
                                  store: map<string, Summary>, cache: map<string, ArxivRecord>, cache': map<string, ArxivRecord>,
                                  fetch: string -> string, parse: string -> AbsPage,
                                  prompts: map<string, string>, llm: Call -> seq<string>)
    ensures GenerateTranscriptArxiv(url, episode, false, promptName, background, store, cache, fetch, parse, prompts, llm)
         == GenerateTranscriptArxiv(url, episode, false, promptName, background, store, cache', fetch, parse, prompts, llm)
  {
  }

  /** A cached run makes no model call and leaves the store as it is. */
  lemma CachedRunNoCalls(url: string, episode: string, promptName: string, background: string,
                         store: map<string, Summary>, cache: map<string, ArxivRecord>,
                         fetch: string -> string, parse: string -> AbsPage,
                         prompts: map<string, string>, llm: Call -> seq<string>)
    ensures var run := GenerateTranscriptArxiv(url, episode, true, promptName, background, store, cache, fetch, parse, prompts, llm);
      run.calls == [] && run.store == store
      && (run.result.Ok? <==> GetArxivId(url).Some? && TranscriptPath(GetArxivId(url).value) in store)
  {
  }

  /** The record a fresh run stores is found again by a cached run of the
      same URL, which returns the same script: the store is keyed by the
      same id the URL yields. */
  lemma CachedRerun(url: string, episode: string, promptName: string, background: string,
                    store: map<string, Summary>, cache: map<string, ArxivRecord>,
                    fetch: string -> string, parse: string -> AbsPage,
                    prompts: map<string, string>, llm: Call -> seq<string>,
                    fetch': string -> string, parse': string -> AbsPage, llm': Call -> seq<string>)
    requires GenerateTranscriptArxiv(url, episode, false, promptName, background, store, cache, fetch, parse, prompts, llm).result.Ok?
    ensures var first := GenerateTranscriptArxiv(url, episode, false, promptName, background, store, cache, fetch, parse, prompts, llm);
      var again := GenerateTranscriptArxiv(url, episode, true, promptName, background, first.store, cache, fetch', parse', prompts, llm');
      again.result == first.result && again.calls == []
  {
    var bk := Transcript.FlattenBackground(background);
    FreshRecord(url, cache, fetch, parse);
    var rec := Lookup(url, false, cache, fetch, parse).value;
    MissingPromptNoCalls(rec, episode, promptName, bk, prompts, llm);
    TemplatesFound(rec, episode, promptName, bk, prompts, llm);
    SummaryFields(rec, episode, prompts[promptName], prompts["research_question_prompt"], prompts["topic_prompt"], bk, llm);
  }

  // ---------------------------------------------------------------------
  // From utterances to the lines produce_audio receives

  /** The registered name behind a seed (the inverse of the seed map). */
  function SpeakerNameOf(seed: int): string {
    if seed == 2800 then "Justin"
    else if seed == 2400 then "Emma"
    else if seed == 4600 then "Danzai"
    else if seed == 13200 then "Doudou"
    else ""
  }

  lemma SpeakerNameRoundTrip(name: string)
    requires name in Transcript.SpeakerSeeds
    ensures SpeakerNameOf(Transcript.SpeakerSeeds[name]) == name
  {
  }

  /** The lines as run.py builds them: each utterance's integer seed is
      passed where `produce_audio` expects the speaker's name. */
  function LinesAsWritten(us: seq<Transcript.Utterance>): (ls: seq<Speech.Line>)
    ensures |ls| == |us|
    ensures forall i :: 0 <= i < |ls| ==> ls[i] == Speech.Line(us[i].text, Speech.Seed(us[i].seed), us[i].sequenceId)
  {
    seq(|us|, i requires 0 <= i < |us| => Speech.Line(us[i].text, Speech.Seed(us[i].seed), us[i].sequenceId))
  }

  /** As written, every line is spoken with Justin's voice: no seed is a key
      of the name-keyed embedding map, so the lookup always falls back. */
  lemma AsWrittenEveryLineJustin(us: seq<Transcript.Utterance>)
    ensures forall i :: 0 <= i < |us| ==> Speech.EmbeddingFor(LinesAsWritten(us)[i].speaker) == Speech.JustinEmbedding
  {
  }

  /** As written, a dialogue line by any registered speaker is parsed with
      that speaker's seed and then synthesised with Justin's voice. */
  lemma AsWrittenDialogueVoice(name: string, text: string)
    requires name in Transcript.SpeakerSeeds
    ensures var k := Transcript.ClassifyLine("**" + name + ":**" + text);
      && k.Spoken? && k.seed == Transcript.SpeakerSeeds[name]
      && Speech.EmbeddingFor(LinesAsWritten([Transcript.Utterance(k.text, k.seed, 1)])[0].speaker) == Speech.JustinEmbedding
  {
    Transcript.DialogueLineParses(name, text);
    var k := Transcript.ClassifyLine("**" + name + ":**" + text);
    var ls := LinesAsWritten([Transcript.Utterance(k.text, k.seed, 1)]);
    assert ls[0].speaker == Speech.Seed(k.seed);
  }

  /** Any documented dialogue line of Emma's (`**Emma:**` and the text) is
      parsed as Emma's, with her seed, yet synthesised with Justin's voice,
      although the embedding map has a voice for her. */
  lemma AsWrittenEmmaSpeaksAsJustin(text: string)
    ensures var k := Transcript.ClassifyLine("**Emma:**" + text);
      && k.Spoken? && k.seed == 2400
      && Speech.EmbeddingFor(LinesAsWritten([Transcript.Utterance(k.text, k.seed, 1)])[0].speaker) == Speech.JustinEmbedding
      && Speech.EmbeddingFor(Speech.Name("Emma")) == Speech.EmmaEmbedding
  {
    var name := "Emma";
    assert "**Emma:**" + text == "**" + name + ":**" + text;
    assert name in Transcript.SpeakerSeeds && Transcript.SpeakerSeeds[name] == 2400;
    AsWrittenDialogueVoice(name, text);
  }

  /** The lines with the speaker's name, as `produce_audio` expects. */
  function SpeechLines(us: seq<Transcript.Utterance>): (ls: seq<Speech.Line>)
    ensures |ls| == |us|
    ensures forall i :: 0 <= i < |ls| ==> ls[i].text == us[i].text && ls[i].sequenceId == us[i].sequenceId
  {
    seq(|us|, i requires 0 <= i < |us| => Speech.Line(us[i].text, Speech.Name(SpeakerNameOf(us[i].seed)), us[i].sequenceId))
  }

  /** With names passed, a line gets Emma's voice exactly when it is Emma's,
      and Justin's otherwise (the map has only those two voices). */
  lemma SpeechLinesVoices(us: seq<Transcript.Utterance>)
    ensures forall i :: 0 <= i < |us| ==>
      (Speech.EmbeddingFor(SpeechLines(us)[i].speaker) == Speech.EmmaEmbedding <==> us[i].seed == Transcript.SpeakerSeeds["Emma"])
  {
  }

  /** A dialogue line by a registered speaker is synthesised with the voice
      registered for that name. */
  lemma DialogueLineVoice(name: string, text: string)
    requires name in Transcript.SpeakerSeeds
    ensures var k := Transcript.ClassifyLine("**" + name + ":**" + text);
      && k.Spoken?
      && Speech.EmbeddingFor(SpeechLines([Transcript.Utterance(k.text, k.seed, 1)])[0].speaker) == Speech.EmbeddingFor(Speech.Name(name))
  {
    Transcript.DialogueLineParses(name, text);
    SpeakerNameRoundTrip(name);
  }

  // ---------------------------------------------------------------------
  // The driver

  /** What the driver produces, and the `transcript` directory afterwards. */
  datatype PodcastRun<S> = PodcastRun(result: Result<Speech.Episode<S>, PipelineError>, store: map<string, Summary>)

  /** From the script on: parse it, then synthesise the utterances, turned
      into speech lines by `lines`, under the paper's id with no offset. */
  function ScriptEpisode<S>(url: string, transcript: string, lines: seq<Transcript.Utterance> -> seq<Speech.Line>,
                            tts: Speech.Request -> Speech.Clip<S>): Result<Speech.Episode<S>, PipelineError>
  {
    match Transcript.ParseLines(Split(transcript, "\n"))
    case Err(pe) => Err(ParseFailed(pe))
    case Ok(us) =>
      match GetArxivId(url)
      case None => Err(InvalidUrl)
      case Some(id) =>
        if us == [] then Err(NoUtterances)
        else Ok(Speech.EpisodeOf(lines(us), id + ".wav", 0.0, tts))
  }

  /** The episode as run.py makes it, with the seeds passed as speakers. */
  function EpisodeFromScript<S>(url: string, transcript: string, tts: Speech.Request -> Speech.Clip<S>): Result<Speech.Episode<S>, PipelineError>
  {
    ScriptEpisode(url, transcript, LinesAsWritten, tts)
  }

  /** Justin's request for each utterance's text. */
  function JustinRequests(us: seq<Transcript.Utterance>): (rs: seq<Speech.Request>)
    ensures |rs| == |us|
    ensures forall i :: 0 <= i < |rs| ==> rs[i].embedding == Speech.JustinEmbedding && rs[i].text == us[i].text
  {
    seq(|us|, i requires 0 <= i < |us| => Speech.Request(us[i].text, Speech.JustinEmbedding, Speech.FixedParams))
  }

  /** The requests made for the lines as run.py builds them are Justin's. */
  lemma AsWrittenRequests(us: seq<Transcript.Utterance>)
    ensures Speech.Requests(LinesAsWritten(us)) == JustinRequests(us)
  {
    AsWrittenEveryLineJustin(us);
  }

  /** The script's utterances behind a finished episode. */
  lemma ScriptUtterances<S>(url: string, transcript: string, lines: seq<Transcript.Utterance> -> seq<Speech.Line>,
                            tts: Speech.Request -> Speech.Clip<S>)
    ensures var r := ScriptEpisode(url, transcript, lines, tts);
      var parsed := Transcript.ParseLines(Split(transcript, "\n"));
      r.Ok? ==>
        && parsed.Ok? && GetArxivId(url).Some?
        && r.value == Speech.EpisodeOf(lines(parsed.value), GetArxivId(url).value + ".wav", 0.0, tts)
  {
  }

  /** As written, every request the driver sends to the speech backend
      carries Justin's embedding: the episode's audio and refined texts are
      the backend's answers to each utterance's text in Justin's voice. */
  lemma AsWrittenEpisodeAllJustin<S>(url: string, transcript: string, tts: Speech.Request -> Speech.Clip<S>)
    ensures var r := EpisodeFromScript(url, transcript, tts);
      r.Ok? ==>
        var rs := JustinRequests(Transcript.ParseLines(Split(transcript, "\n")).value);
        && r.value.audio == Concat(seq(|rs|, i requires 0 <= i < |rs| => tts(rs[i]).samples))
        && |r.value.refined| == |rs|
        && forall i :: 0 <= i < |rs| ==> r.value.refined[i] == tts(rs[i]).refined
  {
    ScriptUtterances(url, transcript, LinesAsWritten, tts);
    var parsed := Transcript.ParseLines(Split(transcript, "\n"));
    if EpisodeFromScript(url, transcript, tts).Ok? {
      Speech.EpisodeFromRequests(LinesAsWritten(parsed.value), GetArxivId(url).value + ".wav", 0.0, tts);
      AsWrittenRequests(parsed.value);
    }
  }

  /** The episode with the speakers' names passed, as `produce_audio`
      expects them. */
  function IntendedEpisodeFromScript<S>(url: string, transcript: string, tts: Speech.Request -> Speech.Clip<S>): Result<Speech.Episode<S>, PipelineError>
  {
    ScriptEpisode(url, transcript, SpeechLines, tts)
  }

  /** With names passed, each request carries its utterance's text, and
      Emma's embedding exactly when the utterance is Emma's; the episode is
      made of the backend's answers to those requests, in order. */
  lemma IntendedEpisodeVoices<S>(url: string, transcript: string, tts: Speech.Request -> Speech.Clip<S>)
    ensures var r := IntendedEpisodeFromScript(url, transcript, tts);
      r.Ok? ==>
        var us := Transcript.ParseLines(Split(transcript, "\n")).value;
        var rs := Speech.Requests(SpeechLines(us));
        && r.value.audio == Concat(seq(|rs|, i requires 0 <= i < |rs| => tts(rs[i]).samples))
        && |r.value.refined| == |us|
        && forall i :: 0 <= i < |us| ==>
             && r.value.refined[i] == tts(rs[i]).refined
             && rs[i].text == us[i].text
             && (rs[i].embedding == Speech.EmmaEmbedding <==> us[i].seed == Transcript.SpeakerSeeds["Emma"])
  {
    ScriptUtterances(url, transcript, SpeechLines, tts);
    var parsed := Transcript.ParseLines(Split(transcript, "\n"));
    if IntendedEpisodeFromScript(url, transcript, tts).Ok? {
      var us := parsed.value;
      Speech.EpisodeFromRequests(SpeechLines(us), GetArxivId(url).value + ".wav", 0.0, tts);
      SpeechLinesVoices(us);
    }
  }

  /** The driver: the script with the default dialogue prompt, then the
      episode made from it. */
  function Podcast<S>(url: string, episode: string, useCache: bool, background: string,
                      store: map<string, Summary>, cache: map<string, ArxivRecord>,
                      fetch: string -> string, parse: string -> AbsPage,
                      prompts: map<string, string>, llm: Call -> seq<string>,
                      tts: Speech.Request -> Speech.Clip<S>): PodcastRun<S>
  {
    var run := GenerateTranscriptArxiv(url, episode, useCache, "dialogue_prompt", background, store, cache, fetch, parse, prompts, llm);
    match run.result
    case Err(e) => PodcastRun(Err(e), run.store)
    case Ok(transcript) => PodcastRun(EpisodeFromScript(url, transcript, tts), run.store)
  }

  /** The last three lines of the main block of run.py: parse the script
      and produce the audio under the paper's id. */
  method ProduceFromScript<S>(url: string, transcript: string, tts: Speech.Request -> Speech.Clip<S>)
    returns (r: Result<Speech.Episode<S>, PipelineError>)
    ensures r == EpisodeFromScript(url, transcript, tts)
  {
    var arxivId := GetArxivId(url);
    var parsed := Transcript.ParseTranscript(transcript);
    if parsed.Err? {
      return Err(ParseFailed(parsed.error));
    }
    if arxivId.None? {
      return Err(InvalidUrl);
    }
    var audio := Speech.ProduceAudio(LinesAsWritten(parsed.value), arxivId.value + ".wav", 0.0, tts);
    if audio.Err? {
      return Err(NoUtterances);
    }
    return Ok(audio.value);
  }

  /** The main block of run.py. */
  method RunPodcast<S>(url: string, episode: string, useCache: bool, background: string,
                       store: map<string, Summary>, cache: map<string, ArxivRecord>,
                       fetch: string -> string, parse: string -> AbsPage,
                       prompts: map<string, string>, llm: Call -> seq<string>,
                       tts: Speech.Request -> Speech.Clip<S>) returns (r: PodcastRun<S>)
    ensures r == Podcast(url, episode, useCache, background, store, cache, fetch, parse, prompts, llm, tts)
  {
    var run := GenerateTranscriptArxiv(url, episode, useCache, "dialogue_prompt", background, store, cache, fetch, parse, prompts, llm);
    if run.result.Err? {
      return PodcastRun(Err(run.result.error), run.store);
    }
    var ep := ProduceFromScript(url, run.result.value, tts);
    return PodcastRun(ep, run.store);
  }

  /** A finished episode is written under the paper's id, and it exists
      exactly when the script parses into at least one utterance. */
  lemma EpisodeFiles<S>(url: string, transcript: string, tts: Speech.Request -> Speech.Clip<S>)
    ensures var r := EpisodeFromScript(url, transcript, tts);
      var parsed := Transcript.ParseLines(Split(transcript, "\n"));
      && (r.Ok? <==> parsed.Ok? && parsed.value != [] && GetArxivId(url).Some?)
      && (r.Ok? ==>
            var f := GetArxivId(url).value + ".wav";
            && r.value.audioPath == "audio/" + f
            && r.value.srtPath == "audio/subtitle_" + f + ".srt"
            && r.value.logPath == "audio/refined_text_" + f + ".txt")
  {
    var parsed := Transcript.ParseLines(Split(transcript, "\n"));
    if parsed.Ok? && parsed.value != [] && GetArxivId(url).Some? {
      Speech.EpisodePaths(LinesAsWritten(parsed.value), GetArxivId(url).value + ".wav", 0.0, tts);
    }
  }
}
