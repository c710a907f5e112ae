/**
 * The reader fetch and line filter shared by arxiv_reader.py
 * (`get_arxiv_content`) and scidir_reader.py (`get_sciencedirect_content`):
 * fetch the page through r.jina.ai, split the Markdown on newlines, drop
 * every line that starts with `>`, and rejoin the rest with newlines.
 */
module ContentFilter {
  import opened Wrappers
  import opened Strings

  /** A Markdown quote line, which the readers discard. */
  predicate Quoted(line: string) {
    StartsWith(line, ">")
  }

  /** The lines that survive the filter, in their original order. */
  function Kept(lines: seq<string>): (kept: seq<string>)
    ensures |kept| <= |lines|
  {
    if lines == [] then []
    else
      var init := Kept(lines[..|lines| - 1]);
      var last := lines[|lines| - 1];
      if Quoted(last) then init else init + [last]
  }

  /** The filtered text. */
  function FilterContent(text: string): string {
    Join(Kept(Split(text, "\n")), "\n")
  }

  /** The loop of both readers: append every line that does not start with
      `>`, then join with newlines. */
  method FilterLines(text: string) returns (r: string)
    ensures r == FilterContent(text)
  {
    var lines := Split(text, "\n");
    var sanitized: seq<string> := [];
    for i := 0 to |lines|
      invariant sanitized == Kept(lines[..i])
    {
      assert lines[..i + 1][..i] == lines[..i];
      if !StartsWith(lines[i], ">") {
        sanitized := sanitized + [lines[i]];
      }
    }
    assert lines[..|lines|] == lines;
    r := Join(sanitized, "\n");
  }

  /** The r.jina.ai reader in front of a page's URL. */
  function ReaderUrl(url: string): string {
    "https://r.jina.ai/" + url
  }

  /** Fetch a page through the reader and filter its Markdown: all of
      `get_sciencedirect_content`, and the body of `get_arxiv_content` once
      the PDF's URL is built. */
  method FetchFiltered(url: string, fetch: string -> string) returns (content: string)
    ensures content == FilterContent(fetch(ReaderUrl(url)))
  {
    var text := fetch(ReaderUrl(url));
    content := FilterLines(text);
  }

  /** A line is kept exactly when it is one of the input lines and does not
      start with `>`. */
  lemma {:induction false} KeptMembers(lines: seq<string>)
    ensures forall x :: x in Kept(lines) <==> x in lines && !Quoted(x)
  {
    if lines != [] {
      var init := lines[..|lines| - 1];
      KeptMembers(init);
      assert lines == init + [lines[|lines| - 1]];
    }
  }

  /** The filter works line by line: filtering two blocks of lines is
      filtering each and putting the results side by side, so kept lines stay
      in their original order. */
  lemma {:induction false} KeptAppend(a: seq<string>, b: seq<string>)
    ensures Kept(a + b) == Kept(a) + Kept(b)
    decreases |b|
  {
    if b != [] {
      var b' := b[..|b| - 1];
      assert (a + b)[..|a + b| - 1] == a + b';
      KeptAppend(a, b');
    } else {
      assert a + b == a;
    }
  }

  /** Without quote lines nothing is dropped. */
  lemma {:induction false} KeptAll(lines: seq<string>)
    requires forall k :: 0 <= k < |lines| ==> !Quoted(lines[k])
    ensures Kept(lines) == lines
  {
    if lines != [] {
      KeptAll(lines[..|lines| - 1]);
    }
  }

  /** Filtering kept lines again changes nothing. */
  lemma KeptIdempotent(lines: seq<string>)
    ensures Kept(Kept(lines)) == Kept(lines)
  {
    var kept := Kept(lines);
    KeptMembers(lines);
    assert forall k :: 0 <= k < |kept| ==> kept[k] in kept;
    KeptAll(kept);
  }

  lemma NoNewlineIn(s: string)
    requires !Contains(s, "\n")
    ensures '\n' !in s
  {
    CharAbsent(s, '\n');
  }

  /** Splitting the filtered text on newlines gives back exactly the kept
      lines (a single empty line when every line was dropped). */
  lemma FilteredLines(text: string)
    ensures var kept := Kept(Split(text, "\n"));
      Split(FilterContent(text), "\n") == if kept == [] then [""] else kept
  {
    var lines := Split(text, "\n");
    var kept := Kept(lines);
    if kept != [] {
      SplitPartsFree(text, "\n");
      KeptMembers(lines);
      forall k | 0 <= k < |kept|
        ensures '\n' !in kept[k]
      {
        assert kept[k] in lines;
        var j :| 0 <= j < |lines| && lines[j] == kept[k];
        NoNewlineIn(lines[j]);
      }
      SplitJoin(kept, "\n");
    } else {
      NotContainsFirstChar("", "\n");
    }
  }

  /** No line of the filtered text starts with `>`. */
  lemma FilteredHasNoQuote(text: string)
    ensures forall k :: 0 <= k < |Split(FilterContent(text), "\n")| ==> !Quoted(Split(FilterContent(text), "\n")[k])
  {
    FilteredLines(text);
    var kept := Kept(Split(text, "\n"));
    KeptMembers(Split(text, "\n"));
    if kept != [] {
      assert forall k :: 0 <= k < |kept| ==> kept[k] in kept;
    }
  }

  /** Filtering is idempotent. */
  lemma FilterIdempotent(text: string)
    ensures FilterContent(FilterContent(text)) == FilterContent(text)
  {
    FilteredLines(text);
    var kept := Kept(Split(text, "\n"));
    if kept != [] {
      KeptIdempotent(Split(text, "\n"));
    } else {
      assert Kept([""]) == Kept([]) + [""];
    }
  }

  /** A text without quote lines comes through unchanged. */
  lemma FilterUnchanged(text: string)
    requires forall k :: 0 <= k < |Split(text, "\n")| ==> !Quoted(Split(text, "\n")[k])
    ensures FilterContent(text) == text
  {
    KeptAll(Split(text, "\n"));
    JoinSplit(text, "\n");
  }
}
