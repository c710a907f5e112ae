/**
 * scidir_reader.py: fetch a ScienceDirect article as Markdown through the
 * r.jina.ai reader, pick the title and the abstract out of that text with
 * two regular expressions, and cache the record under the article id.
 * HTTP is a parameter; the cache directory is a map from path to record.
 */
module ScidirReader {
  import opened Wrappers
  import opened Strings
  import opened ContentFilter

  // ---------------------------------------------------------------------
  // The article id

  /** `url.split('/')[-1]`. */
  function ArticleId(url: string): string {
    AfterLast(url, "/")
  }

  /** The id is the end of the URL after its last `/` (all of it when there
      is none), and holds no `/`. */
  lemma ArticleIdSpec(url: string)
    ensures var id := ArticleId(url);
      && EndsWith(url, id)
      && '/' !in id
      && (Contains(url, "/") ==> |id| < |url| && url[|url| - |id| - 1] == '/')
      && (!Contains(url, "/") ==> id == url)
  {
    var id := ArticleId(url);
    AfterLastSpec(url, "/");
    AfterLastCharFree(url, '/');
    if Contains(url, "/") {
      assert url[..|url| - |id|][|url| - |id| - 1] == url[|url| - |id| - 1];
    }
  }

  /** An article URL ending in a slash-free id gives that id back; one ending
      in `/` gives the empty id. */
  lemma ArticleIdOfUrl(base: string, id: string)
    requires '/' !in id
    ensures ArticleId(base + "/" + id) == id
  {
    AfterLastChar(base, '/', id);
  }

  // ---------------------------------------------------------------------
  // extract_title_abstract

  /** `re.search(r'Title:\s*(.*)', text).group(1)` once the leftmost
      `Title:` is at `j`: skip whitespace (newlines included), then take the
      rest of that line. */
  function TitleGroup(text: string, j: nat): string
    requires j + 6 <= |text|
  {
    BeforeFirst(StripLeft(text[j + 6..], Whitespace), "\n")
  }

  /** The title: the group stripped, or `Title not found`. */
  function ExtractTitle(text: string): (r: string)
    ensures !Contains(text, "Title:") ==> r == "Title not found"
    ensures Contains(text, "Title:") ==> !Contains(r, "\n")
    ensures Contains(text, "Title:") && r != [] ==> r[0] !in Whitespace && r[|r| - 1] !in Whitespace
  {
    match IndexOf(text, "Title:")
    case None => "Title not found"
    case Some(j) =>
      var g := TitleGroup(text, j);
      var r := Strip(g, Whitespace);
      StripIsInfix(g, Whitespace);
      NoNewlineIn(g);
      assert '\n' !in r by {
        assert forall k :: 0 <= k < |r| ==> r[k] in g;
      }
      StripNoNewline(r);
      r
  }

  lemma StripNoNewline(r: string)
    requires '\n' !in r
    ensures !Contains(r, "\n")
  {
    NotContainsFirstChar(r, "\n");
  }

  /** A page whose first `Title:` line reads `Title: <t>` yields `t`, for a
      title that is not empty, has no newline and is not padded. */
  lemma TitleOfPage(title: string, rest: string)
    requires title != [] && '\n' !in title
    requires title[0] !in Whitespace && title[|title| - 1] !in Whitespace
    ensures ExtractTitle("Title: " + title + "\n" + rest) == title
  {
    var text := "Title: " + title + "\n" + rest;
    assert OccursAt(text, "Title:", 0);
    assert IndexOf(text, "Title:") == Some(0);
    var tail := text[6..];
    assert tail == [' '] + (title + "\n" + rest);
    assert StripLeft(tail, Whitespace) == StripLeft(title + "\n" + rest, Whitespace);
    assert StripLeft(title + "\n" + rest, Whitespace) == title + "\n" + rest;
    FirstOccurrenceAfter(title, "\n", rest);
    assert TitleGroup(text, 0) == title;
    StripUnchanged(title, Whitespace);
  }

  /** Wherever the first `Title:` stands, the title is the rest of its line
      stripped, once the whitespace after the colon (newlines included) is
      skipped: for a line that does not start with whitespace, ended by a
      newline or by the end of the text. */
  lemma TitleAnywhere(pre: string, ws: string, line: string, tail: string)
    requires forall k :: 0 <= k < |ws| ==> ws[k] in Whitespace
    requires line != [] && line[0] !in Whitespace && '\n' !in line
    requires tail == [] || tail[0] == '\n'
    ensures var text := pre + "Title:" + ws + line + tail;
      && OccursAt(text, "Title:", |pre|)
      && TitleGroup(text, |pre|) == line
      && (IndexOf(text, "Title:") == Some(|pre|) ==> ExtractTitle(text) == Strip(line, Whitespace))
  {
    var text := pre + "Title:" + ws + line + tail;
    assert text[|pre|..|pre| + 6] == "Title:";
    assert text[|pre| + 6..] == ws + (line + tail);
    StripLeftRun(ws, line + tail, Whitespace);
    if tail == [] {
      assert line + tail == line;
      NotContainsFirstChar(line, "\n");
    } else {
      assert line + tail == line + "\n" + tail[1..];
      FirstOccurrenceAfter(line, "\n", tail[1..]);
    }
  }

  /** `Abstract\s*--------` matches at `j`: the word, any run of whitespace,
      then eight dashes. */
  predicate AbstractAt(text: string, j: nat) {
    OccursAt(text, "Abstract", j) && StartsWith(StripLeft(text[j + 8..], Whitespace), "--------")
  }

  /** The group that `\s*(.*)` captures under `re.DOTALL` after a match at
      `j`: everything after the dashes and the whitespace that follows them. */
  function AbstractGroup(text: string, j: nat): string
    requires AbstractAt(text, j)
  {
    StripLeft(StripLeft(text[j + 8..], Whitespace)[8..], Whitespace)
  }

  /** Where `re.search` finds the abstract pattern: the leftmost match at or
      after `from`. */
  function FindAbstract(text: string, from: nat): (r: Option<nat>)
    ensures r.Some? ==> from <= r.value && AbstractAt(text, r.value)
    ensures r.Some? ==> forall j :: from <= j < r.value ==> !AbstractAt(text, j)
    ensures r.None? ==> forall j :: from <= j ==> !AbstractAt(text, j)
    decreases |text| - from
  {
    if |text| < from + 8 then None
    else if AbstractAt(text, from) then Some(from)
    else FindAbstract(text, from + 1)
  }

  /** The abstract: the group stripped and cut before its first
      `Introduction`, or `Abstract not found`. */
  function ExtractAbstract(text: string): (r: string)
    ensures FindAbstract(text, 0).None? ==> r == "Abstract not found"
    ensures FindAbstract(text, 0).Some? ==> !Contains(r, "Introduction")
  {
    match FindAbstract(text, 0)
    case None => "Abstract not found"
    case Some(j) => BeforeFirst(Strip(AbstractGroup(text, j), Whitespace), "Introduction")
  }

  /** A text opening with the underlined `Abstract` heading matches at
      once, and the group is everything after the heading's whitespace. */
  lemma AbstractHeading(body: string)
    requires body != [] && body[0] !in Whitespace
    ensures var text := "Abstract\n--------\n" + body;
      FindAbstract(text, 0) == Some(0) && AbstractGroup(text, 0) == body
  {
    var text := "Abstract\n--------\n" + body;
    assert OccursAt(text, "Abstract", 0);
    var dashed := "--------\n" + body;
    var after := text[8..];
    assert after == "\n" + dashed;
    StripLeftRun("\n", dashed, Whitespace);
    assert StartsWith(dashed, "--------");
    assert AbstractAt(text, 0);
    assert dashed[8..] == "\n" + body;
    StripLeftRun("\n", body, Whitespace);
  }

  /** Wherever the pattern first matches, the abstract is what follows the
      dashes and the whitespace after them, stripped and cut before its
      first `Introduction`. */
  lemma AbstractAnywhere(pre: string, ws1: string, ws2: string, body: string)
    requires forall k :: 0 <= k < |ws1| ==> ws1[k] in Whitespace
    requires forall k :: 0 <= k < |ws2| ==> ws2[k] in Whitespace
    requires body == [] || body[0] !in Whitespace
    ensures var text := pre + "Abstract" + ws1 + "--------" + ws2 + body;
      && AbstractAt(text, |pre|)
      && AbstractGroup(text, |pre|) == body
      && (FindAbstract(text, 0) == Some(|pre|) ==>
            ExtractAbstract(text) == BeforeFirst(Strip(body, Whitespace), "Introduction"))
  {
    var text := pre + "Abstract" + ws1 + "--------" + ws2 + body;
    assert text[|pre|..|pre| + 8] == "Abstract";
    var dashed := "--------" + ws2 + body;
    assert text[|pre| + 8..] == ws1 + dashed;
    StripLeftRun(ws1, dashed, Whitespace);
    assert StartsWith(dashed, "--------");
    assert dashed[8..] == ws2 + body;
    StripLeftRun(ws2, body, Whitespace);
  }

  /** Under the underlined heading the abstract is the stripped body cut
      before its first `Introduction`. */
  lemma HeadedAbstract(body: string)
    requires body != [] && body[0] !in Whitespace
    ensures ExtractAbstract("Abstract\n--------\n" + body) == BeforeFirst(Strip(body, Whitespace), "Introduction")
  {
    AbstractHeading(body);
  }

  /** The abstract the reader renders as a heading underlined with dashes
      comes out exactly, followed by the blank line before `Introduction`:
      the code strips before it cuts, so the separating newlines stay. */
  lemma AbstractOfPage(abs: string, rest: string)
    requires abs != [] && abs[0] !in Whitespace && 'I' !in abs
    ensures ExtractAbstract("Abstract\n--------\n" + abs + "\n\nIntroduction" + rest) == abs + "\n\n"
  {
    var sep := "Introduction";
    assert sep[0] == 'I' && sep[|sep| - 1] == 'n';
    assert 'n' !in Whitespace;
    var pre := abs + "\n\n";
    var body := pre + "Introduction" + rest;
    assert "Abstract\n--------\n" + abs + "\n\nIntroduction" + rest == "Abstract\n--------\n" + body;
    assert body[0] == abs[0];
    HeadedAbstract(body);
    assert 'I' !in pre by {
      assert forall k :: 0 <= k < |abs| ==> pre[k] == abs[k];
    }
    StripThenCut(pre, sep, rest, Whitespace);
  }

  // ---------------------------------------------------------------------
  // get_sciencedirect, save_article

  /** The record `get_sciencedirect` returns and `save_article` stores. */
  datatype Article = Article(articleId: string, title: string, abstractText: string, content: string)

  function CachePath(id: string): string {
    "sciencedirect/" + id + ".json"
  }

  /** What `get_sciencedirect` returns. */
  function Lookup(url: string, useCache: bool, cache: map<string, Article>, fetch: string -> string): Article {
    var id := ArticleId(url);
    if CachePath(id) in cache && useCache then cache[CachePath(id)]
    else
      var content := FilterContent(fetch(ReaderUrl(url)));
      Article(id, ExtractTitle(content), ExtractAbstract(content), content)
  }

  /** `get_sciencedirect`, computing `Lookup`; what it promises is proved
      about `Lookup` by `FreshArticle` and `CacheRoundTrip`. */
  method GetSciencedirect(url: string, useCache: bool, cache: map<string, Article>, fetch: string -> string) returns (r: Article)
    ensures r == Lookup(url, useCache, cache, fetch)
  {
    var id := ArticleId(url);
    if CachePath(id) in cache && useCache {
      return cache[CachePath(id)];
    }
    var content := FetchFiltered(url, fetch);
    var title := ExtractTitle(content);
    var abstractText := ExtractAbstract(content);
    return Article(id, title, abstractText, content);
  }

  /** `save_article`: store the record under its own id. */
  function SaveArticle(cache: map<string, Article>, a: Article): (c: map<string, Article>)
    ensures CachePath(a.articleId) in c && c[CachePath(a.articleId)] == a
    ensures forall p :: p in cache && p != CachePath(a.articleId) ==> p in c && c[p] == cache[p]
    ensures c.Keys == cache.Keys + {CachePath(a.articleId)}
  {
    cache[CachePath(a.articleId) := a]
  }

  /** A freshly read record is keyed by the URL's id, holds the filtered
      Markdown, and its title is a single stripped line. */
  lemma FreshArticle(url: string, cache: map<string, Article>, fetch: string -> string)
    ensures var a := Lookup(url, false, cache, fetch);
      && a.articleId == ArticleId(url)
      && '/' !in a.articleId
      && a.content == FilterContent(fetch(ReaderUrl(url)))
      && !Contains(a.title, "\n")
      && !Contains(a.abstractText, "Introduction")
  {
    ArticleIdSpec(url);
    var content := FilterContent(fetch(ReaderUrl(url)));
    if !Contains(content, "Title:") {
      StripNoNewline("Title not found");
    }
    if FindAbstract(content, 0).None? {
      NotContainsFirstChar("Abstract not found", "Introduction");
    }
  }

  /** Saving a freshly read record and asking again with the cache allowed
      gives the same record without fetching anything. */
  lemma CacheRoundTrip(url: string, cache: map<string, Article>, fetch: string -> string, fetch': string -> string)
    ensures var a := Lookup(url, false, cache, fetch);
      Lookup(url, true, SaveArticle(cache, a), fetch') == a
  {
  }
}
