# papercast core, modelled in Dafny

papercast turns a research paper into a two-voice podcast episode. It reads
an arXiv paper: its abstract page's meta tags, and its PDF as Markdown
through the r.jina.ai reader. A chat model then makes three calls: a topic,
research questions, and a dialogue script. `run.py` parses the script into
`(text, speaker seed, sequence id)` utterances, sanitising each text so the
speech synthesiser does not read punctuation aloud. `tts_gen.py` synthesises
every utterance with ChatTTS and concatenates the clips. It also writes an
`.srt` subtitle file, timed by a running sum of clip durations, and a log of
the refined texts. Two smaller readers do the same kind of extraction: a
ScienceDirect reader and a PDF reader.

This project models that deterministic logic in Dafny and proves its
properties. Everything around it is a parameter:
- the chat model is a total function from the call made to the contents of
  the choices it returns;
- ChatTTS is a total function from a request (text, speaker embedding,
  inference parameters) to a clip (samples, refined text);
- HTTP fetching is a function from URL to page text;
- HTML meta-tag parsing is a function from page text to a record;
- PDF page extraction is the list of page texts;
- JSON decoding is a partial function;
- the cache directories (`arxiv/`, `sciencedirect/`, `json/`, `transcript/`)
  are maps from path to stored record.

The modules follow the source files:

| module | models |
|---|---|
| `Wrappers` | `Option` and `Result` |
| `Strings` | the Python string operations used: `in`, `find`, `split` with and without `maxsplit`, `join`, `replace`, `strip`/`lstrip`/`rstrip`, `str(n)` and zero-padded `format` |
| `ContentFilter` | the r.jina.ai reader URL and the "drop lines starting with `>`" loop, shared by the arXiv and ScienceDirect readers |
| `Transcript` | run.py: `speaker_seed_map`, `sanitize_text`, `parse_transcript`, and the flattening of background knowledge |
| `Speech` | tts_gen.py: the speaker lookup, `produce_audio_data`, the time formatting, the timeline, the subtitle layout, and `produce_audio` |
| `Llm` | a chat-completion call, and how its reply is read |
| `Summarizer` | summarizer.py: `generate_summary_arxiv`, including its prompt assembly and the order of its three calls |
| `ArxivReader` | arxiv_reader.py |
| `ScidirReader` | scidir_reader.py |
| `PdfReader` | pdf_reader.py |
| `Pipeline` | the driver in run.py: `generate_transcript_arxiv` and the main block |

Times are exact reals: a clip lasts its sample count divided by 24000
seconds. Python's `//`, `%` and `int()` on floats are written out with
`.Floor`: floor division, a remainder with the sign of the divisor, and
truncation toward zero. These raising paths of the source are error values:
- a missing template key;
- a response without choices;
- a missing meta tag;
- a URL without an arXiv id;
- a cached run with no stored script;
- a model reply that does not decode to a JSON object;
- a `**Speaker` line with no closing `**`;
- an empty transcript reaching `zip(*audio_data)`.
The raising paths that "## Left out" lists are not modelled.

## Model

| member | source | states |
|---|---|---|
| Transcript.SanitizeChar | run.py:43-54 | no output character is one of `? ' ’ ! - ( ) " :`; `?` and `!` become `,`; the other seven become a space; every other character is left as it is |
| Transcript.ReplaceChainPointwise | run.py:42-55 | a chain of one-character `replace` calls keeps the length and acts on each character independently, applying the rules in order |
| Transcript.SanitizeRulesOnChar | run.py:43-54 | the ten replacements, applied in the source's order to one character, give the per-character rule |
| Transcript.SanitizeIsCharMap | run.py:42-55 | `sanitize_text` preserves length and maps each character by the per-character rule |
| Transcript.SanitizeSpec | run.py:42-55 | the sanitised text has the input's length and no unspeakable character; `?`/`!` positions hold `,`, other unspeakable positions hold a space, all other positions are unchanged |
| Transcript.SanitizeIdempotent | run.py:42-55 | sanitising twice gives the same text as sanitising once |
| Transcript.BoldFields | run.py:66 | `line.split('**', 2)` of a line starting with `**` has two or three fields, and the first is empty |
| Transcript.DialogueFields | run.py:66-71 | the fields of `**Name:**text` are `""`, `Name:` and `text` when the name has no `*` |
| Transcript.RegisteredNameStrip | run.py:11-14 | the four registered names hold no `*`, and stripping colons from `Name:` gives back the name |
| Transcript.DialogueLineParses | run.py:65-71 | a `**Name:**text` line for a registered name is kept, with that name's seed and the text stripped and then sanitised |
| Transcript.UnregisteredSpeakerSkipped | run.py:66-69 | a `**Name:**text` line whose name is not registered is dropped without an error, whatever the text |
| Transcript.UnclosedSpeakerFails | run.py:66-71 | `**Name` for a registered name without a closing `**` is the error case (the `[2]` index raises) |
| Transcript.SpokenSanitized | run.py:70-71 | a kept line carries a registered seed and a text without unspeakable characters |
| Transcript.NumberSpec | run.py:61-73 | numbering fails exactly when some line is the error case; otherwise the result holds the kept lines in order, numbered 1..n |
| Transcript.NumberFirstError | run.py:63-71 | the reported error is the first failing line, with its index and speaker, and no earlier line fails |
| Transcript.ParsedUtterances | run.py:59-74 | every parsed utterance has sequence id = position + 1, a registered seed, and a sanitised text |
| Transcript.NoSpeakerLinesNoUtterances | run.py:63-65 | a transcript where no line starts with `**` parses to no utterances |
| Transcript.ParseTranscript | run.py:59-74 | the loop over `transcript.split('\n')` computes the line-by-line parse, including the error case |
| Transcript.EmptyTranscript | run.py:59-74 | the empty transcript parses to no utterances |
| Transcript.FlattenBackground | run.py:21 | same length; no newline remains; each newline becomes a space; every other character is kept |
| Speech.EmbeddingFor | tts_gen.py:15-27 | Emma's embedding exactly for the name `"Emma"`; Justin's for every other key, including any integer seed |
| Speech.ProduceAudioData | tts_gen.py:59-70 | one backend call with the speaker's embedding and the fixed parameters; duration = sample count / 24000, never negative |
| Speech.FloatModRange | tts_gen.py:99-100 | Python's float `%` by a positive divisor lies in [0, divisor) |
| Speech.FieldsBounded | tts_gen.py:99-100 | minutes and seconds lie in [0,60) and milliseconds in [0,1000), for every time |
| Speech.FieldsOfNonNegative | tts_gen.py:91-100 | for t ≥ 0 the fields are ⌊t/3600⌋, ⌊t/60⌋ mod 60, ⌊t⌋ mod 60 and ⌊1000t⌋ mod 1000 |
| Speech.FieldsAreMilliseconds | tts_gen.py:99-100 | for t ≥ 0 the four fields recombine to ⌊1000t⌋ milliseconds |
| Speech.FormatTimeRoundTrip | tts_gen.py:99-100 | below 100 hours, the time string has the `HH:MM:SS,mmm` layout with digit fields, and it reads back as ⌊1000t⌋ milliseconds |
| Speech.ZeroTime | tts_gen.py:90 | time 0 is written `00:00:00,000` |
| Speech.TimelineSpec | tts_gen.py:94-105 | the first entry starts at the offset; each entry lasts its clip's duration; each entry starts where the previous one ends; the last one ends at offset + total duration |
| Speech.TimelineAt | tts_gen.py:94-105 | entry i spans offset + the sum of the first i durations to offset + the sum of the first i+1 |
| Speech.TimelineMonotone | tts_gen.py:94-105 | with non-negative durations no entry starts before the offset or ends before it starts |
| Speech.LeadInText | tts_gen.py:89-93 | the lead-in's time range runs from `00:00:00,000` to the formatted offset |
| Speech.SrtEntriesSpec | tts_gen.py:88-105 | len(transcript) entries, plus one exactly when offset > 0; the lead-in is `[AI GENERATED MUSIC]` from 0 to the offset; the later entries are the timeline paired with the original texts, in order |
| Speech.BlockNumbered | tts_gen.py:111-115 | subtitle block i opens with the decimal index i+1, which reads back as i+1, then the time range; it closes with the caption and a blank line |
| Speech.ClipsOf | tts_gen.py:77-79 | one clip per transcript line, in order, each synthesised from that line's text and speaker |
| Speech.EpisodePaths | tts_gen.py:111-120 | the audio, subtitle and log files are `audio/<f>`, `audio/subtitle_<f>.srt` and `audio/refined_text_<f>.txt` |
| Speech.SynthesizeAll | tts_gen.py:75-79 | the first loop yields the clip list of the transcript |
| Speech.BuildEntries | tts_gen.py:88-105 | the entry list is the optional lead-in followed by the timed captions |
| Speech.CaptionAll | tts_gen.py:94-105 | the running-start-time loop builds exactly the timeline paired with the texts |
| Speech.WriteSrt | tts_gen.py:111-115 | the written subtitle text is the numbered blocks, concatenated in order |
| Speech.WriteLog | tts_gen.py:120-122 | the log is each refined text followed by a newline, in order |
| Speech.Requests | tts_gen.py:77-78 | one request per line, in order, with the line's text and the fixed parameters |
| Speech.EpisodeFromRequests | tts_gen.py:77-84 | the episode's audio is the backend's answers to the requests concatenated in order, and its refined texts are theirs |
| Speech.ProduceAudio | tts_gen.py:74-125 | fails exactly on an empty transcript; otherwise gives the concatenated audio, the subtitle file, the log, the refined texts and the three paths |
| Speech.AudioMatchesTimeline | tts_gen.py:83-105 | the last subtitle entry ends at offset + the total sample count of the concatenated audio / 24000 |
| Speech.DurationsSum | tts_gen.py:69-84 | the total of the durations times the sample rate is the total sample count of the clips |
| Llm.LastChoice | summarizer.py:48 | nothing exactly when there are no choices; otherwise the last choice with whitespace stripped |
| Summarizer.MissingPromptNoCalls | summarizer.py:37-47 | a missing template fails exactly when one of the three keys is absent, before any model call; the chosen template is looked up first |
| Summarizer.CallsOnlyFailEmpty | summarizer.py:47-58 | once the templates are found, the only failure is a response without choices, and at least one call is made |
| Summarizer.TemplatesFound | summarizer.py:37-39 | with all three templates present, the summary uses the chosen template, `research_question_prompt` and `topic_prompt` |
| Summarizer.TopicCallFirst | summarizer.py:47-48 | the first call has an empty system prompt, the topic prompt with title and abstract as the user message, temperature 0.1 and 2048 tokens; an empty reply stops there |
| Summarizer.QuestionsCallSecond | summarizer.py:50-54 | the second call has the research-question prompt (with `<TITLE>`, `<ABSTRACT>` and `<TOPIC>` replaced in that order) as system prompt, an empty user message and temperature 0.5; an empty reply stops there |
| Summarizer.QuestionsStageCalls | summarizer.py:50-54 | the questions stage appends its call after the calls already made |
| Summarizer.ScriptCallThird | summarizer.py:56-58 | the calls are exactly topic, questions, script; the script call has the seven placeholders replaced in order, the paper content as user message, temperature 0.7 and 4096 tokens; it succeeds exactly when its reply has a choice |
| Summarizer.GenerateSummaryArxiv | summarizer.py:28-67 | a read failure happens exactly when the paper cannot be read, with no model call; at most three calls; a summary takes all three and copies id, title, authors, abstract and content from the record read, its script being the last answer to the third call, whose user message is the paper's text |
| Summarizer.SummarizeShape | summarizer.py:36-67 | once the paper is read: at most three calls, no read failure, and a summary takes all three calls and copies the record |
| Summarizer.SummaryFields | summarizer.py:60-67 | the record copies id, title, authors, abstract and content from the paper, and its summary is the stripped last choice of the third call |
| Summarizer.PlainTemplateUnchanged | summarizer.py:50-56 | a template without `<` passes through both placeholder chains unchanged |
| Summarizer.UnreadablePaperNoCalls | summarizer.py:31-33 | a paper that cannot be read fails with the reader's error before any model call |
| ArxivReader.GetArxivId | arxiv_reader.py:7-13 | an id exists exactly when the URL contains `arxiv.org/abs` or `arxiv.org/pdf` |
| ArxivReader.AbsIdSpec | arxiv_reader.py:8-9 | in the abs branch, the id is the URL's tail after its last `arxiv.org/abs/` (the whole URL if that exact string is absent) |
| ArxivReader.PdfIdSpec | arxiv_reader.py:10-11 | in the pdf branch (no `arxiv.org/abs`), the id is the tail after the last `arxiv.org/pdf/`, cut before its first `.pdf` |
| ArxivReader.AbsUrlRoundTrip | arxiv_reader.py:8-9 | `https://arxiv.org/abs/<id>` gives back a new-style id |
| ArxivReader.PdfUrlRoundTrip | arxiv_reader.py:10-11 | `https://arxiv.org/pdf/<id>.pdf` gives back a new-style id |
| ArxivReader.AuthorsRoundTrip | arxiv_reader.py:22-23 | the `'; '`-joined authors split back into the author list when no name holds `;` |
| ArxivReader.GetArxivInfo | arxiv_reader.py:16-25 | succeeds exactly when title and abstract tags exist (the title is checked first), with the meta-tag title, the joined authors and the abstract |
| ArxivReader.GetArxivContent | arxiv_reader.py:45-53 | the content is the reader's Markdown of `arxiv.org/pdf/<id>.pdf` with quote lines dropped |
| ArxivReader.GetArxiv | arxiv_reader.py:56-74 | the method computes the cache-or-fetch lookup |
| ArxivReader.SaveArxiv | arxiv_reader.py:78-85 | the record is stored at `arxiv/<id>.json`, and every other stored file is unchanged; no other file is added |
| ArxivReader.LookupRejects | arxiv_reader.py:57-62 | the lookup fails with the not-an-arXiv-URL error exactly when `get_arxiv_id` gives None, whatever the cache holds |
| ArxivReader.FreshRecord | arxiv_reader.py:56-74 | a fresh record's id is the URL's id; title, authors and abstract come from the meta tags; content is the filtered Markdown |
| ArxivReader.CacheRoundTrip | arxiv_reader.py:62-85 | after a fresh record is saved, a cached lookup returns it without fetching |
| ContentFilter.FilterLines | arxiv_reader.py:49-53 | the loop computes the kept lines joined with newlines; scidir_reader.py:10-14 runs the same loop |
| ContentFilter.KeptMembers | arxiv_reader.py:50-52 | a line is kept exactly when it is an input line not starting with `>` |
| ContentFilter.KeptAppend | arxiv_reader.py:50-52 | filtering works block by block, so kept lines keep their original order |
| ContentFilter.FilteredLines | arxiv_reader.py:50-53 | splitting the filtered text on newlines gives exactly the kept lines (one empty line when none is kept) |
| ContentFilter.FilteredHasNoQuote | scidir_reader.py:10-14 | no line of the filtered text starts with `>` |
| ContentFilter.FilterIdempotent | scidir_reader.py:10-14 | filtering twice is filtering once |
| ContentFilter.FilterUnchanged | arxiv_reader.py:49-53 | a text with no quote line comes through unchanged |
| ScidirReader.ArticleIdSpec | scidir_reader.py:31 | the article id is the URL's tail after its last `/`, holding no `/` (the whole URL when there is no `/`) |
| ScidirReader.ArticleIdOfUrl | scidir_reader.py:31 | `<base>/<id>` gives back an id without `/` |
| ContentFilter.FetchFiltered | scidir_reader.py:7-14 | the content is the r.jina.ai reader's Markdown of the URL with quote lines dropped; `get_arxiv_content` does the same for the PDF's URL |
| ScidirReader.ExtractTitle | scidir_reader.py:18-19 | `Title not found` when there is no `Title:`; otherwise a single line with no leading or trailing whitespace |
| ScidirReader.TitleAnywhere | scidir_reader.py:18-19 | wherever the first `Title:` stands, the title is the stripped rest of the line reached after the whitespace that follows the colon |
| ScidirReader.TitleOfPage | scidir_reader.py:18-19 | `Title: <t>\n…` gives back a one-line, stripped title t |
| ScidirReader.FindAbstract | scidir_reader.py:22 | the search finds the leftmost match of `Abstract`, whitespace, `--------`, whitespace, or reports that none exists |
| ScidirReader.ExtractAbstract | scidir_reader.py:22-23 | `Abstract not found` when the pattern is absent; otherwise a text with no `Introduction` |
| ScidirReader.AbstractHeading | scidir_reader.py:22 | after the heading `Abstract\n--------\n`, the match is at 0 and the group is the body |
| ScidirReader.AbstractAnywhere | scidir_reader.py:22-23 | the pattern matches wherever `Abstract`, whitespace, eight dashes and whitespace stand, and the group is the body after them; when that is the first match, the abstract is the stripped body cut before its first `Introduction` |
| ScidirReader.HeadedAbstract | scidir_reader.py:22-23 | the abstract is the stripped body cut before its first `Introduction` |
| ScidirReader.AbstractOfPage | scidir_reader.py:22-23 | because the cut comes after the strip, the abstract keeps the blank line before `Introduction` |
| ScidirReader.GetSciencedirect | scidir_reader.py:27-44 | the method computes the cache-or-fetch lookup |
| ScidirReader.SaveArticle | scidir_reader.py:46-53 | the article is stored at `sciencedirect/<id>.json`, and every other stored file is unchanged; no other file is added |
| ScidirReader.FreshArticle | scidir_reader.py:31-44 | a fresh article's id is the URL's last segment; its content is the filtered Markdown; its title has no newline; its abstract has no `Introduction` |
| ScidirReader.CacheRoundTrip | scidir_reader.py:33-53 | after a fresh article is saved, a cached lookup returns it |
| PdfReader.SplitExtRoot | pdf_reader.py:10 | the root from `splitext` is a prefix of the name |
| PdfReader.GetJsonId | pdf_reader.py:7-10 | the id holds no `/` |
| PdfReader.SplitExtStem | pdf_reader.py:10 | `stem.ext` loses exactly its final extension when the stem has a character other than `.` |
| PdfReader.JsonIdOfFile | pdf_reader.py:7-10 | `dir/stem.ext` gives `stem`: the directory and only the last extension are dropped (`a.b.pdf` gives `a.b`) |
| PdfReader.JsonIdWithoutExtension | pdf_reader.py:10 | a basename without a dot is its own id |
| PdfReader.JsonIdOfDotFile | pdf_reader.py:10 | a leading dot is not an extension separator (`.rest` gives `.rest`) |
| PdfReader.LoadPdfContent | pdf_reader.py:13-19 | the text is the page texts concatenated in page order with no separator |
| PdfReader.ExtractPdfInfo | pdf_reader.py:23-42 | the method computes the JSON-mode call, the decoding and the two overrides |
| PdfReader.PdfInfoErrors | pdf_reader.py:35-37 | three outcomes: it fails for no choices, fails for an undecodable reply, and succeeds exactly when the reply decodes to an object |
| PdfReader.PdfInfoMembers | pdf_reader.py:37-41 | the result has the model's keys plus `pdf_id` and `content`; `pdf_id` is the path's id and `content` the raw text, whatever the model said; other members are unchanged |
| PdfReader.SaveJson | pdf_reader.py:45-53 | the object is stored at `json/<name>.json`, and every other stored file is unchanged; no other file is added |
| PdfReader.PdfInfoId | pdf_reader.py:40 | a successful extraction always carries the path's id |
| PdfReader.GetPdf | pdf_reader.py:56-65 | with the cache allowed and a stored file, the stored value; otherwise it succeeds exactly when the extraction does, with the same error or the extracted object, whose `pdf_id` is the path's id |
| PdfReader.ExtractAndSave | pdf_reader.py:67-72 | succeeds exactly when the extraction does, with the same error; on success the object is stored at `json/<id>.json` for the path's id, and every other stored file is unchanged |
| PdfReader.SavedPdfIsCached | pdf_reader.py:50-71 | after the main block saves under `pdf_id`, a cached `get_pdf` of the same path returns the saved object without extracting |
| Pipeline.GenerateTranscriptArxiv | run.py:17-37 | at most three model calls; a failure leaves the store unchanged; a cached run makes no call, writes nothing and succeeds exactly when the URL has an id whose record is stored, returning its script; a fresh run succeeds exactly when the summary does, returns its script, and stores the record at `transcript/<id>.json` for the URL's id, nothing else changing |
| Pipeline.FreshRunIgnoresPaperCache | run.py:24-25 | a run without the cache does not depend on the paper cache |
| Pipeline.CachedRunNoCalls | run.py:31-35 | a cached run makes no model call and writes nothing; it succeeds exactly when the URL has an id whose script is stored |
| Pipeline.CachedRerun | run.py:24-35 | after a successful fresh run, a cached run returns the same script with no model call |
| Pipeline.SpeakerNameRoundTrip | run.py:11-14 | each registered seed maps back to its speaker's name |
| Pipeline.LinesAsWritten | run.py:72 | as written, each utterance reaches speech synthesis with its integer seed in the speaker-name position |
| Pipeline.AsWrittenEveryLineJustin | tts_gen.py:27 | as written, every line is voiced with Justin's embedding |
| Pipeline.AsWrittenDialogueVoice | run.py:65-72 | as written, a `**Name:**` line for any registered name is kept with its seed but voiced as Justin |
| Pipeline.AsWrittenEmmaSpeaksAsJustin | tts_gen.py:15-27 | `**Emma:** …` is kept with seed 2400 but voiced as Justin, though `"Emma"` selects Emma's embedding |
| Pipeline.SpeechLines | run.py:70-72 | the lines handed to synthesis keep each utterance's text and sequence id, in order |
| Pipeline.SpeechLinesVoices | tts_gen.py:15-27 | with the speaker's name passed, a line is voiced as Emma exactly when its seed is Emma's |
| Pipeline.DialogueLineVoice | run.py:65-72 | with the speaker's name passed, a `**Name:**` line is voiced with that name's embedding |
| Pipeline.ProduceFromScript | run.py:85-90 | the method parses the script, then produces audio under `<id>.wav` with no offset from the lines as run.py builds them; the errors come in the source's order |
| Pipeline.RunPodcast | run.py:76-90 | the method computes the driver as written: the script (fresh or cached), then the episode |
| Pipeline.AsWrittenRequests | run.py:72 | as written, the request for each utterance is its text in Justin's voice with the fixed parameters |
| Pipeline.AsWrittenEpisodeAllJustin | run.py:85-90 | as written, every backend request of an episode carries Justin's embedding: the audio is the concatenated answers to each utterance's text in Justin's voice, and the refined texts are those answers' |
| Pipeline.IntendedEpisodeVoices | run.py:85-90 | with names passed, each request carries its utterance's text, and Emma's embedding exactly when the utterance is Emma's; the episode is made of the answers in order |
| Pipeline.EpisodeFiles | run.py:85-90 | an episode exists exactly when the script parses to at least one utterance and the URL has an id; its files are named after `<id>.wav` |

## Left out

- The chat model, ChatTTS, torch and numpy are oracle parameters. Left out:
  model loading, `torch.load`, `torch.manual_seed`, and what inference
  actually produces.
- The fixed sampling parameters are left out: a call records only
  temperature, token limit and JSON mode; model name, `top_p` and the
  penalties are the same on every call.
- `requests.get`, BeautifulSoup's meta-tag search and pypdf's page
  extraction are parameters. How HTML and PDF are parsed is not modelled.
- File I/O is modelled as maps from path to record. Left out:
  - YAML and JSON encoding and key order;
  - `os.path.exists` races;
  - `os.makedirs`;
  - `soundfile.write`;
  - the YAML configuration load.
  The stored records are the in-memory values.
- `print` calls are left out; they only produce console output. The
  `__main__` block of pdf_reader.py is `PdfReader.ExtractAndSave` and that
  of run.py is `Pipeline.RunPodcast`. The `__main__` blocks of the other
  files are left out: they run fixed examples.
- Exceptions the oracles could raise are not modelled: the chat model and
  ChatTTS are total functions, and `requests.get` always returns a page.
  A failed completion call, a reply whose message content is None (the
  `.strip()` at summarizer.py:48), a network error and a cached JSON file
  that does not decode are therefore left out.
- `os.path.join` drops the directory when the second part is absolute. An
  id starting with `/` (from a URL such as `https://arxiv.org/abs//x`)
  would make run.py:29 write `/x.json`. Pipeline.TranscriptPath and
  ArxivReader.CachePath always put `transcript/` or `arxiv/` in front.
  The ScienceDirect article id never holds `/`, so its path is not
  affected.
- Floating-point rounding is left out. Times and durations are exact reals,
  and `(t*1000) % 1000` is exact.
- Speech.FormatTimeRoundTrip: stated only below 100 hours. From 100 hours on,
  `{:02d}` prints three or more hour digits; `Speech.FormatTime` still models
  that case.
- The cached branch of `get_pdf` returns whatever JSON is stored; its object
  is not checked.
- `generate_summary_sciencedirect` (summarizer.py:71-93) is unfinished and
  nothing calls it. It unpacks the prompt dictionary into four names, which
  fails.
- `sanitize_content` (arxiv_reader.py:30-38) uses `re`, which the file
  never imports, and nothing calls it.
- tools/postprocess.py is not part of this model. It is audio gain and
  compression over pydub.
- `gen_gpt_chat_json` is only the JSON-mode flag of a call. llm_funcs.py is
  otherwise not part of this model.
- The regular expressions of `extract_title_abstract` are modelled as an
  explicit leftmost search. For these two patterns no backtracking can
  change the match: `\s*` is always followed by a non-space character or by
  `.*`.

## Findings

| source | as written | input that shows it | evidently intended | confidence | as-written member | corrected member |
|---|---|---|---|---|---|---|
| run.py:70-72, run.py:90, tts_gen.py:27 | `parse_transcript` stores the integer speaker seed in the tuple position that `produce_audio` passes on as `speaker_name`. `speaker_embedding_map.get(seed, justin_spk)` never finds an integer key, so every line is voiced with Justin's embedding. | the line `**Emma:** Hello there.` | each line is voiced with its speaker's embedding: the name is passed, so Emma's lines use Emma's embedding | not executed | Pipeline.AsWrittenEmmaSpeaksAsJustin | Pipeline.IntendedEpisodeVoices |

The driver (`Pipeline.EpisodeFromScript`, `Pipeline.ProduceFromScript`,
`Pipeline.Podcast`, `Pipeline.RunPodcast`) is the code as written: it uses
`Pipeline.LinesAsWritten`, and `Pipeline.AsWrittenEpisodeAllJustin` shows
that every line of its episodes is voiced as Justin.
`Pipeline.AsWrittenEmmaSpeaksAsJustin` is the concrete case of Emma's line.
The corrected driver, `Pipeline.IntendedEpisodeFromScript`, uses
`Pipeline.SpeechLines`, which passes each utterance's speaker name.
