/**
 * arxiv_reader.py: recognise an arXiv URL, read the abstract page's meta
 * tags, fetch the paper as Markdown through the r.jina.ai reader, and
 * assemble the record the summariser works from, with a cache keyed by the
 * arXiv id. HTTP and HTML parsing are parameters; the cache directory is a
 * map from path to record.
 */
module ArxivReader {
  import opened Wrappers
  import opened Strings
  import opened ContentFilter

  // ---------------------------------------------------------------------
  // get_arxiv_id

  /** `get_arxiv_id`: the text after the last `arxiv.org/abs/` when the URL
      mentions `arxiv.org/abs`; otherwise, when it mentions `arxiv.org/pdf`,
      the text after the last `arxiv.org/pdf/` cut before its first `.pdf`;
      otherwise nothing. */
  function GetArxivId(url: string): (r: Option<string>)
    ensures r.Some? <==> Contains(url, "arxiv.org/abs") || Contains(url, "arxiv.org/pdf")
  {
    if Contains(url, "arxiv.org/abs") then Some(AfterLast(url, "arxiv.org/abs/"))
    else if Contains(url, "arxiv.org/pdf") then Some(BeforeFirst(AfterLast(url, "arxiv.org/pdf/"), ".pdf"))
    else None
  }

  /** An abstract URL, whatever else it mentions (the abstract form wins over
      the PDF form), yields a suffix of the URL holding no `arxiv.org/abs/`,
      preceded by `arxiv.org/abs/`; when the marker lacks its slash the whole
      URL comes back. */
  lemma AbsIdSpec(url: string)
    requires Contains(url, "arxiv.org/abs")
    ensures var id := GetArxivId(url).value;
      && EndsWith(url, id)
      && !Contains(id, "arxiv.org/abs/")
      && (Contains(url, "arxiv.org/abs/") ==> EndsWith(url[..|url| - |id|], "arxiv.org/abs/"))
      && (!Contains(url, "arxiv.org/abs/") ==> id == url)
  {
    var id := AfterLast(url, "arxiv.org/abs/");
    assert GetArxivId(url).value == id;
    AfterLastSpec(url, "arxiv.org/abs/");
    assert EndsWith(url, id);
  }

  /** A PDF URL that is not an abstract URL yields the start of the text
      after the last `arxiv.org/pdf/`, up to (not including) its first
      `.pdf`. */
  lemma PdfIdSpec(url: string)
    requires !Contains(url, "arxiv.org/abs") && Contains(url, "arxiv.org/pdf")
    ensures var id := GetArxivId(url).value;
      var tail := AfterLast(url, "arxiv.org/pdf/");
      && EndsWith(url, tail)
      && !Contains(tail, "arxiv.org/pdf/")
      && StartsWith(tail, id)
      && !Contains(id, ".pdf")
      && (Contains(tail, ".pdf") ==> StartsWith(tail[|id|..], ".pdf"))
      && (!Contains(tail, ".pdf") ==> id == tail)
  {
    var tail := AfterLast(url, "arxiv.org/pdf/");
    AfterLastSpec(url, "arxiv.org/pdf/");
    var id := BeforeFirst(tail, ".pdf");
    if Contains(tail, ".pdf") {
      var i := IndexOf(tail, ".pdf").value;
      assert tail[i..i + 4] == ".pdf";
      assert tail[|id|..][..4] == tail[i..i + 4];
    }
  }

  /** A new-style arXiv identifier such as `2405.04434`: digits and dots. */
  predicate NewStyleId(id: string) {
    forall k :: 0 <= k < |id| ==> id[k] == '.' || '0' <= id[k] <= '9'
  }

  /** The identifier of an abstract URL is recovered exactly. */
  lemma AbsUrlRoundTrip(id: string)
    requires NewStyleId(id)
    ensures GetArxivId("https://arxiv.org/abs/" + id) == Some(id)
  {
    var sep := "arxiv.org/abs/";
    var url := "https://" + sep + id;
    assert url == "https://arxiv.org/abs/" + id;
    assert url[8..21] == "arxiv.org/abs";
    ContainsAt(url, "arxiv.org/abs", 8);
    assert 'a' !in id;
    AfterLastOnly("https://", sep, id);
  }

  /** The only `a` of a PDF URL's fixed part starts `arxiv.org/pdf`, so a
      PDF URL whose tail has no `a` never mentions `arxiv.org/abs`. */
  lemma NoAbsInPdfUrl(rest: string)
    requires 'a' !in rest
    ensures !Contains("https://arxiv.org/pdf/" + rest, "arxiv.org/abs")
  {
    var p := "arxiv.org/abs";
    var s := "arxiv.org/pdf/" + rest;
    var t := "rxiv.org/pdf/" + rest;
    assert "https://arxiv.org/pdf/" + rest == "https://" + s;
    assert s[1..] == t;
    assert s[..|p|] != p by {
      assert s[..|p|][10] == 'p';
    }
    NotContainsFirstChar(rest, p);
    IndexOfSkip("rxiv.org/pdf/", rest, p);
    IndexOfStep(s, p);
    IndexOfSkip("https://", s, p);
  }

  /** A PDF URL whose tail has no `a` is read through its PDF form, and the
      text after `arxiv.org/pdf/` is that tail. */
  lemma PdfUrlTail(rest: string)
    requires 'a' !in rest
    ensures var url := "https://arxiv.org/pdf/" + rest;
      && !Contains(url, "arxiv.org/abs")
      && Contains(url, "arxiv.org/pdf")
      && AfterLast(url, "arxiv.org/pdf/") == rest
  {
    var sep := "arxiv.org/pdf/";
    var url := "https://arxiv.org/pdf/" + rest;
    assert url == "https://" + sep + rest;
    NoAbsInPdfUrl(rest);
    AfterLastOnly("https://", sep, rest);
    FirstOccurrenceAfter("https://", sep, rest);
    assert url[8..21] == sep[..13];
    ContainsAt(url, "arxiv.org/pdf", 8);
  }

  /** The identifier of a PDF URL is recovered exactly. */
  lemma PdfUrlRoundTrip(id: string)
    requires NewStyleId(id)
    ensures GetArxivId("https://arxiv.org/pdf/" + id + ".pdf") == Some(id)
  {
    var rest := id + ".pdf";
    assert 'a' !in id && 'p' !in id;
    assert 'a' !in rest;
    assert "https://arxiv.org/pdf/" + id + ".pdf" == "https://arxiv.org/pdf/" + rest;
    PdfUrlTail(rest);
    IndexOfSuffix(id, ".pdf");
    assert rest[..|id|] == id;
  }

  // ---------------------------------------------------------------------
  // get_arxiv_info, get_arxiv_content, get_arxiv, save_arxiv

  /** The record `get_arxiv` returns and `save_arxiv` stores. */
  datatype ArxivRecord = ArxivRecord(arxivId: string, title: string, authors: string, abstractText: string, content: string)

  /** What the abstract page's meta tags hold: `citation_title`, every
      `citation_author` in page order, and `citation_abstract`. */
  datatype AbsPage = AbsPage(title: Option<string>, authors: seq<string>, abstractText: Option<string>)

  /** Why reading a paper fails: the URL is not an arXiv URL (`get_arxiv_id`
      gives `None`, and `None + '.json'` raises), or a meta tag is missing
      (subscripting the `None` that `soup.find` returns raises). */
  datatype ReaderError = NotAnArxivUrl | MissingMeta(name: string)

  function AbsUrl(id: string): string {
    "https://arxiv.org/abs/" + id
  }

  function PdfUrl(id: string): string {
    "https://arxiv.org/pdf/" + id + ".pdf"
  }

  function CachePath(id: string): string {
    "arxiv/" + id + ".json"
  }

  /** `'; '.join(...)` of the authors. */
  function JoinAuthors(authors: seq<string>): string {
    Join(authors, "; ")
  }

  /** The author list can be read back from the joined string as long as no
      name holds a semicolon. */
  lemma AuthorsRoundTrip(authors: seq<string>)
    requires authors != []
    requires forall k :: 0 <= k < |authors| ==> ';' !in authors[k]
    ensures Split(JoinAuthors(authors), "; ") == authors
  {
    SplitJoin(authors, "; ");
  }

  /** `get_arxiv_info`: fetch the abstract page and read title, joined
      authors and abstract from its meta tags; the title is looked up first. */
  function GetArxivInfo(id: string, fetch: string -> string, parse: string -> AbsPage): (r: Result<(string, string, string), ReaderError>)
    ensures var page := parse(fetch(AbsUrl(id)));
      && (r.Ok? <==> page.title.Some? && page.abstractText.Some?)
      && (page.title.None? ==> r == Err(MissingMeta("citation_title")))
      && (page.title.Some? && page.abstractText.None? ==> r == Err(MissingMeta("citation_abstract")))
      && (r.Ok? ==> r.value == (page.title.value, JoinAuthors(page.authors), page.abstractText.value))
  {
    var page := parse(fetch(AbsUrl(id)));
    if page.title.None? then Err(MissingMeta("citation_title"))
    else
      var authorList := JoinAuthors(page.authors);
      if page.abstractText.None? then Err(MissingMeta("citation_abstract"))
      else Ok((page.title.value, authorList, page.abstractText.value))
  }

  /** `get_arxiv_content`: the reader's Markdown of the PDF, with quote lines
      dropped. */
  method GetArxivContent(id: string, fetch: string -> string) returns (content: string)
    ensures content == FilterContent(fetch(ReaderUrl(PdfUrl(id))))
  {
    content := FetchFiltered(PdfUrl(id), fetch);
  }

  /** What `get_arxiv` returns: a cached record when caching is allowed and
      one is stored under the id, otherwise a freshly read one. */
  function Lookup(url: string, useCache: bool, cache: map<string, ArxivRecord>,
                  fetch: string -> string, parse: string -> AbsPage): Result<ArxivRecord, ReaderError>
  {
    match GetArxivId(url)
    case None => Err(NotAnArxivUrl)
    case Some(id) =>
      if CachePath(id) in cache && useCache then Ok(cache[CachePath(id)])
      else
        match GetArxivInfo(id, fetch, parse)
        case Err(e) => Err(e)
        case Ok(info) => Ok(ArxivRecord(id, info.0, info.1, info.2, FilterContent(fetch(ReaderUrl(PdfUrl(id))))))
  }

  /** `get_arxiv`, computing `Lookup`; what it promises is proved about
      `Lookup` by `LookupRejects`, `FreshRecord` and `CacheRoundTrip`. */
  method GetArxiv(url: string, useCache: bool, cache: map<string, ArxivRecord>,
                  fetch: string -> string, parse: string -> AbsPage) returns (r: Result<ArxivRecord, ReaderError>)
    ensures r == Lookup(url, useCache, cache, fetch, parse)
  {
    var arxivId := GetArxivId(url);
    if arxivId.None? {
      return Err(NotAnArxivUrl);
    }
    var id := arxivId.value;
    if CachePath(id) in cache && useCache {
      return Ok(cache[CachePath(id)]);
    }
    var info := GetArxivInfo(id, fetch, parse);
    if info.Err? {
      return Err(info.error);
    }
    var content := GetArxivContent(id, fetch);
    return Ok(ArxivRecord(id, info.value.0, info.value.1, info.value.2, content));
  }

  /** `save_arxiv`: store the record under its own id. */
  function SaveArxiv(cache: map<string, ArxivRecord>, rec: ArxivRecord): (c: map<string, ArxivRecord>)
    ensures CachePath(rec.arxivId) in c && c[CachePath(rec.arxivId)] == rec
    ensures forall p :: p in cache && p != CachePath(rec.arxivId) ==> p in c && c[p] == cache[p]
    ensures c.Keys == cache.Keys + {CachePath(rec.arxivId)}
  {
    cache[CachePath(rec.arxivId) := rec]
  }

  /** A URL that is not an arXiv URL fails whether or not the cache is
      allowed, and is the only way to get that error. */
  lemma LookupRejects(url: string, useCache: bool, cache: map<string, ArxivRecord>,
                      fetch: string -> string, parse: string -> AbsPage)
    ensures Lookup(url, useCache, cache, fetch, parse) == Err(NotAnArxivUrl) <==> GetArxivId(url).None?
  {
  }

  /** A freshly read record carries the id parsed from the URL, the page's
      meta tags and the filtered Markdown. */
  lemma FreshRecord(url: string, cache: map<string, ArxivRecord>,
                    fetch: string -> string, parse: string -> AbsPage)
    requires Lookup(url, false, cache, fetch, parse).Ok?
    ensures var rec := Lookup(url, false, cache, fetch, parse).value;
      var page := parse(fetch(AbsUrl(rec.arxivId)));
      && GetArxivId(url) == Some(rec.arxivId)
      && page.title == Some(rec.title)
      && rec.authors == JoinAuthors(page.authors)
      && page.abstractText == Some(rec.abstractText)
      && rec.content == FilterContent(fetch(ReaderUrl(PdfUrl(rec.arxivId))))
  {
  }

  /** Saving a freshly read record and asking again with the cache allowed
      gives the same record without fetching anything. */
  lemma CacheRoundTrip(url: string, cache: map<string, ArxivRecord>,
                       fetch: string -> string, parse: string -> AbsPage,
                       fetch': string -> string, parse': string -> AbsPage)
    requires Lookup(url, false, cache, fetch, parse).Ok?
    ensures var rec := Lookup(url, false, cache, fetch, parse).value;
      Lookup(url, true, SaveArxiv(cache, rec), fetch', parse') == Ok(rec)
  {
    FreshRecord(url, cache, fetch, parse);
  }
}
