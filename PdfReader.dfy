/**
 * pdf_reader.py: read the text of a PDF page by page, ask the model in JSON
 * mode for title, abstract, authors and sections, add the file's id and the
 * raw text to the object it returns, and cache that object under the id.
 * Page extraction, the model and JSON decoding are parameters; the `json`
 * directory is a map from path to stored value.
 */
module PdfReader {
  import opened Wrappers
  import opened Strings
  import opened Llm

  // ---------------------------------------------------------------------
  // get_json_id

  /** `os.path.basename`: the text after the last `/`. */
  function Basename(path: string): string {
    AfterLast(path, "/")
  }

  /** The root `os.path.splitext` keeps: everything before the last dot,
      unless only dots come before it (a name such as `.bashrc` has no
      extension). */
  function SplitExtRoot(name: string): (root: string)
    ensures StartsWith(name, root)
  {
    match RFind(name, '.')
    case None => name
    case Some(d) =>
      if exists k :: 0 <= k < d && name[k] != '.' then name[..d] else name
  }

  /** `get_json_id`: the file name without directory or extension. */
  function GetJsonId(path: string): (id: string)
    ensures '/' !in id
  {
    var name := Basename(path);
    AfterLastCharFree(path, '/');
    SplitExtRoot(name)
  }

  /** The last dot of `stem.ext`, with no dot in `ext`, is the one in
      between, so `splitext` keeps `stem` when it has something other than
      dots. */
  lemma SplitExtStem(stem: string, ext: string)
    requires '.' !in ext
    requires exists k :: 0 <= k < |stem| && stem[k] != '.'
    ensures SplitExtRoot(stem + "." + ext) == stem
  {
    var name := stem + "." + ext;
    assert RFind(name, '.') == Some(|stem|) by {
      assert name[|stem|] == '.';
      assert forall k :: |stem| < k < |name| ==> name[k] == ext[k - |stem| - 1];
    }
    var k :| 0 <= k < |stem| && stem[k] != '.';
    assert name[k] == stem[k];
    assert name[..|stem|] == stem;
  }

  /** A file `stem.ext` in any directory gives `stem`, as long as the stem
      has something other than dots and the extension has no dot. */
  lemma JsonIdOfFile(dir: string, stem: string, ext: string)
    requires '/' !in stem && '/' !in ext && '.' !in ext
    requires exists k :: 0 <= k < |stem| && stem[k] != '.'
    ensures GetJsonId(dir + "/" + stem + "." + ext) == stem
  {
    var name := stem + "." + ext;
    assert '/' !in name by {
      assert forall k :: 0 <= k < |name| ==> name[k] == (if k < |stem| then stem[k] else if k == |stem| then '.' else ext[k - |stem| - 1]);
    }
    assert dir + "/" + stem + "." + ext == dir + ['/'] + name;
    AfterLastChar(dir, '/', name);
    assert Basename(dir + "/" + stem + "." + ext) == name;
    SplitExtStem(stem, ext);
  }

  /** A file name without a dot is its own id. */
  lemma JsonIdWithoutExtension(dir: string, name: string)
    requires '/' !in name && '.' !in name
    ensures GetJsonId(dir + "/" + name) == name
  {
    assert dir + "/" + name == dir + ['/'] + name;
    AfterLastChar(dir, '/', name);
  }

  /** A name made of leading dots and one more dot-free part keeps its
      leading dot: `.bashrc` has no extension. */
  lemma JsonIdOfDotFile(rest: string)
    requires '/' !in rest && '.' !in rest
    ensures GetJsonId("." + rest) == "." + rest
  {
    var name := "." + rest;
    assert '/' !in name;
    NotContainsFirstChar(name, "/");
    AfterLastSpec(name, "/");
    assert RFind(name, '.') == Some(0) by {
      assert forall k :: 0 < k < |name| ==> name[k] == rest[k - 1];
    }
  }

  // ---------------------------------------------------------------------
  // load_pdf_content

  /** `load_pdf_content`: the text of every page, in page order. The pages'
      extracted texts are the input. */
  method LoadPdfContent(pages: seq<string>) returns (text: string)
    ensures text == Concat(pages)
    ensures |text| == TotalLength(pages)
  {
    text := "";
    for i := 0 to |pages|
      invariant text == Concat(pages[..i])
    {
      ConcatPrefixStep(pages, i);
      text := text + pages[i];
    }
    assert pages[..|pages|] == pages;
    ConcatLength(pages);
  }

  // ---------------------------------------------------------------------
  // extract_pdf_info

  /** A decoded JSON value; object members are keyed by name (their order is
      not kept). */
  datatype Json =
    | JNull
    | JBool(b: bool)
    | JNumber(n: real)
    | JString(s: string)
    | JArray(items: seq<Json>)
    | JObject(members: map<string, Json>)

  /** Why `extract_pdf_info` fails: no choice in the response
      (`IndexError`), text that `json.loads` rejects, or a decoded value that
      is not an object, so that adding `pdf_id` to it raises. */
  datatype PdfError = NoChoices | InvalidJson | NotAnObject

  const PdfSystemPrompt: string :=
    "\n    You are a helpful PDF reader bot designed to output JSON for scientific articles. By given the following text extract by pyPDF,"
    + "\n    extract the title as \"title\", abstract as \"abstract\", authors as \"authors\" in a list,"
    + "\n    and full text as \"full_text\" as a dictionary from provided content and return a JSON object."
    + "\n    The full text should be include introduction, methods, results, and conclusion sections. You must limit the JSON to 4096 tokens."
    + "\n    "

  /** The one JSON-mode call, at the default temperature and token limit. */
  function PdfCall(pdfText: string): Call {
    Call(PdfSystemPrompt, pdfText, DefaultTemperature, DefaultMaxTokens, true)
  }

  /** What `extract_pdf_info` returns for a PDF with these pages. */
  function PdfInfo(pdfPath: string, pages: seq<string>, llm: Call -> seq<string>,
                   parseJson: string -> Option<Json>): Result<map<string, Json>, PdfError>
  {
    var pdfText := Concat(pages);
    match LastChoice(llm(PdfCall(pdfText)))
    case None => Err(NoChoices)
    case Some(jsonStr) =>
      match parseJson(jsonStr)
      case None => Err(InvalidJson)
      case Some(JObject(m)) => Ok(m["pdf_id" := JString(GetJsonId(pdfPath))]["content" := JString(pdfText)])
      case Some(_) => Err(NotAnObject)
  }

  /** `extract_pdf_info`, computing `PdfInfo`; what it promises is proved
      about `PdfInfo` by `PdfInfoErrors`, `PdfInfoMembers` and `PdfInfoId`. */
  method ExtractPdfInfo(pdfPath: string, pages: seq<string>, llm: Call -> seq<string>,
                        parseJson: string -> Option<Json>) returns (r: Result<map<string, Json>, PdfError>)
    ensures r == PdfInfo(pdfPath, pages, llm, parseJson)
  {
    var pdfText := LoadPdfContent(pages);
    var jsonStr := LastChoice(llm(PdfCall(pdfText)));
    if jsonStr.None? {
      return Err(NoChoices);
    }
    var jsonObj := parseJson(jsonStr.value);
    if jsonObj.None? {
      return Err(InvalidJson);
    }
    if !jsonObj.value.JObject? {
      return Err(NotAnObject);
    }
    var m := jsonObj.value.members;
    m := m["pdf_id" := JString(GetJsonId(pdfPath))];
    m := m["content" := JString(pdfText)];
    return Ok(m);
  }

  /** Each failure of `extract_pdf_info` is reported for exactly its
      cause. */
  lemma PdfInfoErrors(pdfPath: string, pages: seq<string>, llm: Call -> seq<string>,
                      parseJson: string -> Option<Json>)
    ensures var r := PdfInfo(pdfPath, pages, llm, parseJson);
      var reply := LastChoice(llm(PdfCall(Concat(pages))));
      && (r.Err? && r.error.NoChoices? <==> llm(PdfCall(Concat(pages))) == [])
      && (r.Err? && r.error.InvalidJson? <==> reply.Some? && parseJson(reply.value).None?)
      && (r.Ok? <==> reply.Some? && parseJson(reply.value).Some? && parseJson(reply.value).value.JObject?)
  {
    var reply := LastChoice(llm(PdfCall(Concat(pages))));
    if reply.Some? {
      var parsed := parseJson(reply.value);
      if parsed.Some? {
        var v := parsed.value;
        assert parsed == Some(v);
      }
    }
  }

  /** The object the model returns comes back with `pdf_id` and `content`
      set to the file's id and the raw text, and every other member left as
      the model gave it. */
  lemma PdfInfoMembers(pdfPath: string, pages: seq<string>, llm: Call -> seq<string>,
                       parseJson: string -> Option<Json>, m: map<string, Json>)
    requires var reply := LastChoice(llm(PdfCall(Concat(pages))));
      reply.Some? && parseJson(reply.value) == Some(JObject(m))
    ensures PdfInfo(pdfPath, pages, llm, parseJson).Ok?
    ensures var info := PdfInfo(pdfPath, pages, llm, parseJson).value;
      && info.Keys == m.Keys + {"pdf_id", "content"}
      && info["pdf_id"] == JString(GetJsonId(pdfPath))
      && info["content"] == JString(Concat(pages))
      && (forall key :: key in m && key != "pdf_id" && key != "content" ==> info[key] == m[key])
  {
    var info := PdfInfo(pdfPath, pages, llm, parseJson).value;
    assert info == m["pdf_id" := JString(GetJsonId(pdfPath))]["content" := JString(Concat(pages))];
    AddedMembers(m, JString(GetJsonId(pdfPath)), JString(Concat(pages)));
  }

  /** Setting `pdf_id` and then `content` adds those two names and leaves
      every other member alone. */
  lemma AddedMembers(m: map<string, Json>, id: Json, content: Json)
    ensures var info := m["pdf_id" := id]["content" := content];
      && info.Keys == m.Keys + {"pdf_id", "content"}
      && info["pdf_id"] == id && info["content"] == content
      && (forall key :: key in m && key != "pdf_id" && key != "content" ==> info[key] == m[key])
  {
    KeysDistinct();
  }

  // ---------------------------------------------------------------------
  // save_json, get_pdf and the module's main block

  function JsonPath(fileName: string): string {
    "json/" + fileName + ".json"
  }

  /** `save_json`. */
  function SaveJson(store: map<string, Json>, obj: Json, fileName: string): (s: map<string, Json>)
    ensures JsonPath(fileName) in s && s[JsonPath(fileName)] == obj
    ensures forall p :: p in store && p != JsonPath(fileName) ==> p in s && s[p] == store[p]
    ensures s.Keys == store.Keys + {JsonPath(fileName)}
  {
    store[JsonPath(fileName) := obj]
  }

  /** What `get_pdf` returns: the stored value when caching is allowed and
      one is stored under the file's id, otherwise a fresh extraction. */
  function GetPdf(pdfPath: string, useCache: bool, store: map<string, Json>, pages: seq<string>,
                  llm: Call -> seq<string>, parseJson: string -> Option<Json>): (r: Result<Json, PdfError>)
    ensures var path := JsonPath(GetJsonId(pdfPath));
      && (useCache && path in store ==> r == Ok(store[path]))
      && (!(useCache && path in store) ==>
            var info := PdfInfo(pdfPath, pages, llm, parseJson);
            && (r.Ok? <==> info.Ok?)
            && (r.Err? ==> r.error == info.error)
            && (r.Ok? ==>
                  && r.value == JObject(info.value)
                  && "pdf_id" in r.value.members
                  && r.value.members["pdf_id"] == JString(GetJsonId(pdfPath))))
  {
    PdfInfoId(pdfPath, pages, llm, parseJson);
    var jsonId := GetJsonId(pdfPath);
    if JsonPath(jsonId) in store && useCache then Ok(store[JsonPath(jsonId)])
    else
      match PdfInfo(pdfPath, pages, llm, parseJson)
      case Err(e) => Err(e)
      case Ok(m) => Ok(JObject(m))
  }

  /** A successful extraction carries the file's id as a string. */
  lemma PdfInfoId(pdfPath: string, pages: seq<string>, llm: Call -> seq<string>,
                  parseJson: string -> Option<Json>)
    ensures var r := PdfInfo(pdfPath, pages, llm, parseJson);
      r.Ok? ==> "pdf_id" in r.value && r.value["pdf_id"] == JString(GetJsonId(pdfPath))
  {
    var r := PdfInfo(pdfPath, pages, llm, parseJson);
    if r.Ok? {
      var reply := LastChoice(llm(PdfCall(Concat(pages))));
      assert reply.Some? && parseJson(reply.value).Some? && parseJson(reply.value).value.JObject?;
      PdfInfoMembers(pdfPath, pages, llm, parseJson, parseJson(reply.value).value.members);
    }
  }

  /** The two members `extract_pdf_info` sets have different names. */
  lemma KeysDistinct()
    ensures "pdf_id" != "content"
  {
    assert |"pdf_id"| == 6 && |"content"| == 7;
  }

  /** The main block: extract without the cache, then save the object under
      its own `pdf_id`. */
  function ExtractAndSave(pdfPath: string, store: map<string, Json>, pages: seq<string>,
                          llm: Call -> seq<string>, parseJson: string -> Option<Json>): (r: Result<map<string, Json>, PdfError>)
    ensures var info := PdfInfo(pdfPath, pages, llm, parseJson);
      && (r.Ok? <==> info.Ok?)
      && (r.Err? ==> r.error == info.error)
      && (r.Ok? ==>
            var path := JsonPath(GetJsonId(pdfPath));
            && path in r.value && r.value[path] == JObject(info.value)
            && (forall p :: p in store && p != path ==> p in r.value && r.value[p] == store[p])
            && (forall p :: p in r.value && p != path ==> p in store))
  {
    match GetPdf(pdfPath, false, store, pages, llm, parseJson)
    case Err(e) => Err(e)
    case Ok(pdfJson) =>
      PdfInfoId(pdfPath, pages, llm, parseJson);
      Ok(SaveJson(store, pdfJson, pdfJson.members["pdf_id"].s))
  }

  /** What the main block saves is what a later cached `get_pdf` of the same
      file finds, whatever the pages and the model would say then. */
  lemma SavedPdfIsCached(pdfPath: string, store: map<string, Json>, pages: seq<string>,
                         llm: Call -> seq<string>, parseJson: string -> Option<Json>,
                         pages': seq<string>, llm': Call -> seq<string>, parseJson': string -> Option<Json>)
    requires ExtractAndSave(pdfPath, store, pages, llm, parseJson).Ok?
    ensures var saved := ExtractAndSave(pdfPath, store, pages, llm, parseJson).value;
      && PdfInfo(pdfPath, pages, llm, parseJson).Ok?
      && GetPdf(pdfPath, true, saved, pages', llm', parseJson') == Ok(JObject(PdfInfo(pdfPath, pages, llm, parseJson).value))
  {
    PdfInfoId(pdfPath, pages, llm, parseJson);
  }
}
