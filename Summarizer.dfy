/**
 * summarizer.py (`generate_summary_arxiv`): read the paper, then make three
 * chat-completion calls in a row — the topic from title and abstract, the
 * research questions from a prompt filled with title, abstract and topic,
 * and the episode script from a prompt filled with everything so far, with
 * the paper's full text as the user message. Prompt templates (the
 * `prompts.yaml` file) are a map parameter; the model is an oracle.
 */
module Summarizer {
  import opened Wrappers
  import opened Strings
  import opened Llm
  import opened ArxivReader

  /** The record `generate_summary_arxiv` returns. */
  datatype Summary = Summary(arxivId: string, title: string, authors: string, abstractText: string,
                             content: string, summary: string)

  /** Why no summary is produced: the paper cannot be read, a prompt is
      missing from the templates (`KeyError`), or a response has no choices
      (`IndexError`). */
  datatype SummaryError = ReadFailed(cause: ReaderError) | MissingPrompt(key: string) | EmptyResponse

  /** The result together with every model call made, in order. */
  datatype Outcome = Outcome(result: Result<Summary, SummaryError>, calls: seq<Call>)

  /** The topic call: no system message, the topic prompt followed by title
      and abstract as the user message, default temperature and limit. */
  function TopicCall(topicPrompt: string, title: string, abstractText: string): Call {
    Call("", topicPrompt + "\n Title:" + title + "\nAbstract:" + abstractText + "\n",
         DefaultTemperature, DefaultMaxTokens, false)
  }

  /** The research-question prompt with its three placeholders filled, in
      the order of the source. */
  function ResearchQuestionPrompt(template: string, title: string, abstractText: string, topic: string): string {
    Replace(Replace(Replace(template, "<TITLE>", title), "<ABSTRACT>", abstractText), "<TOPIC>", topic)
  }

  /** The research-question call: the filled prompt as system message, an
      empty user message, temperature 0.5. */
  function QuestionsCall(rqPrompt: string): Call {
    Call(rqPrompt, "", 0.5, DefaultMaxTokens, false)
  }

  /** The script prompt with its seven placeholders filled, in the order of
      the source. */
  function SummarizerPrompt(template: string, episode: string, background: string, title: string,
                            abstractText: string, authors: string, topic: string, questions: string): string
  {
    var p1 := Replace(template, "<EPISODE_NUMBER>", episode);
    var p2 := Replace(p1, "<BACKGROUND_KNOWLEDGE>", background);
    var p3 := Replace(p2, "<TITLE>", title);
    var p4 := Replace(p3, "<ABSTRACT>", abstractText);
    var p5 := Replace(p4, "<AUTHORS>", authors);
    var p6 := Replace(p5, "<TOPIC>", topic);
    Replace(p6, "<RESEARCH_QUESTIONS>", questions)
  }

  /** The script call: the filled prompt as system message, the full text
      as user message, temperature 0.7 and 4096 tokens. */
  function ScriptCall(summarizerPrompt: string, content: string): Call {
    Call(summarizerPrompt, content, 0.7, 4096, false)
  }

  /** The third call and the record it completes; `prior` holds the calls
      made so far. */
  function ScriptStage(rec: ArxivRecord, episode: string, template: string, background: string,
                       topic: string, questions: string, llm: Call -> seq<string>, prior: seq<Call>): Outcome
  {
    var c3 := ScriptCall(SummarizerPrompt(template, episode, background, rec.title,
                                          rec.abstractText, rec.authors, topic, questions), rec.content);
    match LastChoice(llm(c3))
    case None => Outcome(Err(EmptyResponse), prior + [c3])
    case Some(summary) =>
      Outcome(Ok(Summary(rec.arxivId, rec.title, rec.authors, rec.abstractText, rec.content, summary)), prior + [c3])
  }

  /** The second call, then the third once it is answered. */
  function QuestionsStage(rec: ArxivRecord, episode: string, template: string, rqTemplate: string,
                          background: string, topic: string, llm: Call -> seq<string>, prior: seq<Call>): Outcome
  {
    var c2 := QuestionsCall(ResearchQuestionPrompt(rqTemplate, rec.title, rec.abstractText, topic));
    match LastChoice(llm(c2))
    case None => Outcome(Err(EmptyResponse), prior + [c2])
    case Some(questions) => ScriptStage(rec, episode, template, background, topic, questions, llm, prior + [c2])
  }

  /** The three calls in a row, once the three templates are found. */
  function SummarizeWith(rec: ArxivRecord, episode: string, template: string, rqTemplate: string,
                         topicTemplate: string, background: string, llm: Call -> seq<string>): Outcome
  {
    var c1 := TopicCall(topicTemplate, rec.title, rec.abstractText);
    match LastChoice(llm(c1))
    case None => Outcome(Err(EmptyResponse), [c1])
    case Some(topic) => QuestionsStage(rec, episode, template, rqTemplate, background, topic, llm, [c1])
  }

  /** `generate_summary_arxiv` once the paper is read: look the three
      templates up (the chosen one first), then make the three calls. */
  function Summarize(rec: ArxivRecord, episode: string, promptName: string, background: string,
                     prompts: map<string, string>, llm: Call -> seq<string>): Outcome
  {
    if promptName !in prompts then Outcome(Err(MissingPrompt(promptName)), [])
    else if "research_question_prompt" !in prompts then Outcome(Err(MissingPrompt("research_question_prompt")), [])
    else if "topic_prompt" !in prompts then Outcome(Err(MissingPrompt("topic_prompt")), [])
    else SummarizeWith(rec, episode, prompts[promptName], prompts["research_question_prompt"], prompts["topic_prompt"], background, llm)
  }

  /** `generate_summary_arxiv`: read the paper, then summarise it. A paper
      that cannot be read is the only read failure and costs no call; at
      most three calls are made, and a summary takes all three and copies
      the record read, its script being the last answer to the third call,
      whose user message is the paper's text. */
  function GenerateSummaryArxiv(url: string, episode: string, useCache: bool, promptName: string, background: string,
                                cache: map<string, ArxivRecord>, fetch: string -> string, parse: string -> AbsPage,
                                prompts: map<string, string>, llm: Call -> seq<string>): (o: Outcome)
    ensures var read := Lookup(url, useCache, cache, fetch, parse);
      && (o.result.Err? && o.result.error.ReadFailed? <==> read.Err?)
      && (read.Err? ==> o == Outcome(Err(ReadFailed(read.error)), []))
      && |o.calls| <= 3
      && (o.result.Ok? ==>
            var rec := read.value;
            var s := o.result.value;
            && |o.calls| == 3
            && s.arxivId == rec.arxivId && s.title == rec.title && s.authors == rec.authors
            && s.abstractText == rec.abstractText && s.content == rec.content
            && Some(s.summary) == LastChoice(llm(o.calls[2]))
            && o.calls[2].user == rec.content)
  {
    match Lookup(url, useCache, cache, fetch, parse)
    case Err(e) => Outcome(Err(ReadFailed(e)), [])
    case Ok(rec) =>
      SummarizeShape(rec, episode, promptName, background, prompts, llm);
      Summarize(rec, episode, promptName, background, prompts, llm)
  }

  /** Summarising makes at most three calls and never fails to read; a
      summary takes all three calls and copies the record. */
  lemma SummarizeShape(rec: ArxivRecord, episode: string, promptName: string, background: string,
                       prompts: map<string, string>, llm: Call -> seq<string>)
    ensures var o := Summarize(rec, episode, promptName, background, prompts, llm);
      && |o.calls| <= 3
      && (o.result.Err? ==> !o.result.error.ReadFailed?)
      && (o.result.Ok? ==>
            var s := o.result.value;
            && |o.calls| == 3
            && s.arxivId == rec.arxivId && s.title == rec.title && s.authors == rec.authors
            && s.abstractText == rec.abstractText && s.content == rec.content
            && Some(s.summary) == LastChoice(llm(o.calls[2]))
            && o.calls[2].user == rec.content)
  {
    MissingPromptNoCalls(rec, episode, promptName, background, prompts, llm);
    if promptName in prompts && "research_question_prompt" in prompts && "topic_prompt" in prompts {
      var template, rqTemplate, topicTemplate := prompts[promptName], prompts["research_question_prompt"], prompts["topic_prompt"];
      TemplatesFound(rec, episode, promptName, background, prompts, llm);
      TopicCallFirst(rec, episode, template, rqTemplate, topicTemplate, background, llm);
      var c1 := TopicCall(topicTemplate, rec.title, rec.abstractText);
      if llm(c1) != [] {
        QuestionsCallSecond(rec, episode, template, rqTemplate, topicTemplate, background, llm);
        var topic := LastChoice(llm(c1)).value;
        var c2 := QuestionsCall(ResearchQuestionPrompt(rqTemplate, rec.title, rec.abstractText, topic));
        if llm(c2) != [] {
          ScriptCallThird(rec, episode, template, rqTemplate, topicTemplate, background, llm);
          if SummarizeWith(rec, episode, template, rqTemplate, topicTemplate, background, llm).result.Ok? {
            SummaryFields(rec, episode, template, rqTemplate, topicTemplate, background, llm);
          }
        }
      }
    }
  }

  /** A missing template is reported before any model call, the chosen one
      first, then `research_question_prompt`, then `topic_prompt`. */
  lemma MissingPromptNoCalls(rec: ArxivRecord, episode: string, promptName: string, background: string,
                             prompts: map<string, string>, llm: Call -> seq<string>)
    ensures var o := Summarize(rec, episode, promptName, background, prompts, llm);
      && (o.result.Err? && o.result.error.MissingPrompt? <==>
            promptName !in prompts || "research_question_prompt" !in prompts || "topic_prompt" !in prompts)
      && (o.result.Err? && o.result.error.MissingPrompt? ==> o.calls == [])
      && (promptName !in prompts ==> o.result == Err(MissingPrompt(promptName)))
  {
    if promptName in prompts && "research_question_prompt" in prompts && "topic_prompt" in prompts {
      CallsOnlyFailEmpty(rec, episode, prompts[promptName], prompts["research_question_prompt"], prompts["topic_prompt"], background, llm);
    }
  }

  /** Once the templates are found the only failure left is an
      unanswered call, and every run makes at least one call. */
  lemma CallsOnlyFailEmpty(rec: ArxivRecord, episode: string, template: string, rqTemplate: string,
                           topicTemplate: string, background: string, llm: Call -> seq<string>)
    ensures var o := SummarizeWith(rec, episode, template, rqTemplate, topicTemplate, background, llm);
      (o.result.Err? ==> o.result.error == EmptyResponse) && o.calls != []
  {
    var c1 := TopicCall(topicTemplate, rec.title, rec.abstractText);
    if llm(c1) != [] {
      var topic := LastChoice(llm(c1)).value;
      assert LastChoice(llm(c1)) == Some(topic);
      var c2 := QuestionsCall(ResearchQuestionPrompt(rqTemplate, rec.title, rec.abstractText, topic));
      if llm(c2) != [] {
        var questions := LastChoice(llm(c2)).value;
        assert LastChoice(llm(c2)) == Some(questions);
      }
    }
  }

  /** With all templates present the run is the three calls with the
      templates found under those names. */
  lemma TemplatesFound(rec: ArxivRecord, episode: string, promptName: string, background: string,
                       prompts: map<string, string>, llm: Call -> seq<string>)
    requires promptName in prompts && "research_question_prompt" in prompts && "topic_prompt" in prompts
    ensures Summarize(rec, episode, promptName, background, prompts, llm)
         == SummarizeWith(rec, episode, prompts[promptName], prompts["research_question_prompt"], prompts["topic_prompt"], background, llm)
  {
  }

  /** The topic call comes first, and an empty answer to it ends the run
      there. */
  lemma TopicCallFirst(rec: ArxivRecord, episode: string, template: string, rqTemplate: string,
                       topicTemplate: string, background: string, llm: Call -> seq<string>)
    ensures var o := SummarizeWith(rec, episode, template, rqTemplate, topicTemplate, background, llm);
      var c1 := TopicCall(topicTemplate, rec.title, rec.abstractText);
      && |o.calls| >= 1 && o.calls[0] == c1
      && (llm(c1) == [] <==> o == Outcome(Err(EmptyResponse), [c1]))
  {
  }

  /** After a topic, the research-question call is next, its prompt filled
      with that topic; an empty answer to it ends the run there. */
  lemma QuestionsCallSecond(rec: ArxivRecord, episode: string, template: string, rqTemplate: string,
                            topicTemplate: string, background: string, llm: Call -> seq<string>)
    requires llm(TopicCall(topicTemplate, rec.title, rec.abstractText)) != []
    ensures var o := SummarizeWith(rec, episode, template, rqTemplate, topicTemplate, background, llm);
      var c1 := TopicCall(topicTemplate, rec.title, rec.abstractText);
      var topic := LastChoice(llm(c1)).value;
      var c2 := QuestionsCall(ResearchQuestionPrompt(rqTemplate, rec.title, rec.abstractText, topic));
      && |o.calls| >= 2 && o.calls[..2] == [c1, c2]
      && (llm(c2) == [] <==> o == Outcome(Err(EmptyResponse), [c1, c2]))
  {
    var c1 := TopicCall(topicTemplate, rec.title, rec.abstractText);
    var topic := LastChoice(llm(c1)).value;
    assert LastChoice(llm(c1)) == Some(topic);
    QuestionsStageCalls(rec, episode, template, rqTemplate, background, topic, llm, [c1]);
    var c2 := QuestionsCall(ResearchQuestionPrompt(rqTemplate, rec.title, rec.abstractText, topic));
    assert [c1] + [c2] == [c1, c2];
  }

  /** The second stage adds its call to those made before, and ends there
      exactly when that call gets no answer. */
  lemma QuestionsStageCalls(rec: ArxivRecord, episode: string, template: string, rqTemplate: string,
                            background: string, topic: string, llm: Call -> seq<string>, prior: seq<Call>)
    ensures var o := QuestionsStage(rec, episode, template, rqTemplate, background, topic, llm, prior);
      var c2 := QuestionsCall(ResearchQuestionPrompt(rqTemplate, rec.title, rec.abstractText, topic));
      && |o.calls| >= |prior| + 1 && o.calls[..|prior| + 1] == prior + [c2]
      && (llm(c2) == [] <==> o == Outcome(Err(EmptyResponse), prior + [c2]))
  {
    var c2 := QuestionsCall(ResearchQuestionPrompt(rqTemplate, rec.title, rec.abstractText, topic));
    if llm(c2) != [] {
      var questions := LastChoice(llm(c2)).value;
      assert LastChoice(llm(c2)) == Some(questions);
      var o := ScriptStage(rec, episode, template, background, topic, questions, llm, prior + [c2]);
      assert |o.calls| == |prior| + 2 && o.calls[..|prior| + 1] == prior + [c2];
    }
  }

  /** After topic and questions, the script call is the third and last, its
      prompt filled with both, and the run succeeds exactly when it is
      answered. */
  lemma ScriptCallThird(rec: ArxivRecord, episode: string, template: string, rqTemplate: string,
                        topicTemplate: string, background: string, llm: Call -> seq<string>)
    requires llm(TopicCall(topicTemplate, rec.title, rec.abstractText)) != []
    requires var topic := LastChoice(llm(TopicCall(topicTemplate, rec.title, rec.abstractText))).value;
      llm(QuestionsCall(ResearchQuestionPrompt(rqTemplate, rec.title, rec.abstractText, topic))) != []
    ensures var o := SummarizeWith(rec, episode, template, rqTemplate, topicTemplate, background, llm);
      var c1 := TopicCall(topicTemplate, rec.title, rec.abstractText);
      var topic := LastChoice(llm(c1)).value;
      var c2 := QuestionsCall(ResearchQuestionPrompt(rqTemplate, rec.title, rec.abstractText, topic));
      var questions := LastChoice(llm(c2)).value;
      var c3 := ScriptCall(SummarizerPrompt(template, episode, background, rec.title,
                                            rec.abstractText, rec.authors, topic, questions), rec.content);
      && o.calls == [c1, c2, c3]
      && (o.result.Ok? <==> llm(c3) != [])
  {
  }

  /** A summary copies the paper's id, title, authors, abstract and text,
      and its script is the stripped last answer to the third call. */
  lemma SummaryFields(rec: ArxivRecord, episode: string, template: string, rqTemplate: string,
                      topicTemplate: string, background: string, llm: Call -> seq<string>)
    requires SummarizeWith(rec, episode, template, rqTemplate, topicTemplate, background, llm).result.Ok?
    ensures var o := SummarizeWith(rec, episode, template, rqTemplate, topicTemplate, background, llm);
      var s := o.result.value;
      && |o.calls| == 3
      && s.arxivId == rec.arxivId && s.title == rec.title && s.authors == rec.authors
      && s.abstractText == rec.abstractText && s.content == rec.content
      && Some(s.summary) == LastChoice(llm(o.calls[2]))
      && o.calls[2].user == rec.content
  {
    var c1 := TopicCall(topicTemplate, rec.title, rec.abstractText);
    var topic := LastChoice(llm(c1)).value;
    var c2 := QuestionsCall(ResearchQuestionPrompt(rqTemplate, rec.title, rec.abstractText, topic));
    var questions := LastChoice(llm(c2)).value;
    var c3 := ScriptCall(SummarizerPrompt(template, episode, background, rec.title,
                                          rec.abstractText, rec.authors, topic, questions), rec.content);
    assert SummarizeWith(rec, episode, template, rqTemplate, topicTemplate, background, llm).calls == [c1] + [c2] + [c3];
  }

  /** A template without any `<` has no placeholder, so the filled prompt is
      the template itself, whatever is being inserted. */
  lemma PlainTemplateUnchanged(template: string, episode: string, background: string, title: string,
                               abstractText: string, authors: string, topic: string, questions: string)
    requires '<' !in template
    ensures SummarizerPrompt(template, episode, background, title, abstractText, authors, topic, questions) == template
    ensures ResearchQuestionPrompt(template, title, abstractText, topic) == template
  {
    NotContainsFirstChar(template, "<EPISODE_NUMBER>");
    NotContainsFirstChar(template, "<BACKGROUND_KNOWLEDGE>");
    NotContainsFirstChar(template, "<TITLE>");
    NotContainsFirstChar(template, "<ABSTRACT>");
    NotContainsFirstChar(template, "<AUTHORS>");
    NotContainsFirstChar(template, "<TOPIC>");
    NotContainsFirstChar(template, "<RESEARCH_QUESTIONS>");
  }

  /** A paper that cannot be read gives no model call. */
  lemma UnreadablePaperNoCalls(url: string, episode: string, useCache: bool, promptName: string, background: string,
                               cache: map<string, ArxivRecord>, fetch: string -> string, parse: string -> AbsPage,
                               prompts: map<string, string>, llm: Call -> seq<string>)
    requires Lookup(url, useCache, cache, fetch, parse).Err?
    ensures var o := GenerateSummaryArxiv(url, episode, useCache, promptName, background, cache, fetch, parse, prompts, llm);
      o.calls == [] && o.result == Err(ReadFailed(Lookup(url, useCache, cache, fetch, parse).error))
  {
  }
}
