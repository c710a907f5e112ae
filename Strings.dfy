/**
 * The handful of Python `str` operations the pipeline is built from, with
 * Python's semantics: `in`, `startswith`, `find`, `split(sep[, maxsplit])`,
 * `join`, `replace`, `strip([chars])` and `str(n)` / `"{:0Nd}".format(n)`.
 */
module Strings {
  import opened Wrappers

  /** The characters for which Python's `str.isspace()` holds; `str.strip()`
      removes them and the regular-expression class `\s` matches them. */
  const Whitespace: set<char> := {
    '\t', '\n', '\U{B}', '\U{C}', '\r', '\U{1C}', '\U{1D}', '\U{1E}', '\U{1F}', ' ',
    '\U{85}', '\U{A0}', '\U{1680}',
    '\U{2000}', '\U{2001}', '\U{2002}', '\U{2003}', '\U{2004}', '\U{2005}',
    '\U{2006}', '\U{2007}', '\U{2008}', '\U{2009}', '\U{200A}',
    '\U{2028}', '\U{2029}', '\U{202F}', '\U{205F}', '\U{3000}'
  }

  /** `s.startswith(p)`. */
  predicate StartsWith(s: string, p: string) {
    |p| <= |s| && s[..|p|] == p
  }

  /** `p` occurs in `s` starting at index `i`. */
  predicate OccursAt(s: string, p: string, i: int) {
    0 <= i && i + |p| <= |s| && s[i..i + |p|] == p
  }

  lemma OccursAtShift(s: string, p: string, i: int)
    requires |s| > 0 && i >= 0
    ensures OccursAt(s[1..], p, i) <==> OccursAt(s, p, i + 1)
  {
    if 0 <= i && i + |p| <= |s| - 1 {
      assert s[1..][i..i + |p|] == s[i + 1..i + 1 + |p|];
    }
  }

  /** The leftmost occurrence of `p` in `s` at or after `from`. */
  function IndexFrom(s: string, p: string, from: nat): (r: Option<nat>)
    ensures r.Some? ==> from <= r.value && OccursAt(s, p, r.value)
    ensures r.Some? ==> forall j :: from <= j < r.value ==> !OccursAt(s, p, j)
    ensures r.None? ==> forall j :: from <= j ==> !OccursAt(s, p, j)
    decreases |s| - from
  {
    if |s| < from + |p| then None
    else if OccursAt(s, p, from) then Some(from)
    else IndexFrom(s, p, from + 1)
  }

  /** `s.find(p)`, with `None` for -1: the leftmost occurrence of `p` in `s`. */
  function IndexOf(s: string, p: string): (r: Option<nat>)
    ensures r.Some? ==> OccursAt(s, p, r.value)
    ensures r.Some? ==> forall j :: 0 <= j < r.value ==> !OccursAt(s, p, j)
    ensures r.None? ==> forall j :: !OccursAt(s, p, j)
  {
    IndexFrom(s, p, 0)
  }

  /** Python's `p in s`. */
  predicate Contains(s: string, p: string) {
    IndexOf(s, p).Some?
  }

  lemma ContainsAt(s: string, p: string, i: int)
    requires OccursAt(s, p, i)
    ensures Contains(s, p)
  {
  }

  /** A character of `p` at an occurrence is a character of `s`, so a string
      missing `p[0]` contains no occurrence of `p`. */
  lemma NotContainsFirstChar(s: string, p: string)
    requires p != [] && p[0] !in s
    ensures !Contains(s, p)
  {
  }

  /** `s.split(sep, maxsplit)`; a negative `maxsplit` is Python's default -1
      (no limit). Occurrences are taken left to right without overlap. */
  function SplitN(s: string, sep: string, maxsplit: int): (parts: seq<string>)
    requires sep != []
    ensures |parts| >= 1
    decreases |s|
  {
    if maxsplit == 0 then [s]
    else
      match IndexOf(s, sep)
      case None => [s]
      case Some(i) => [s[..i]] + SplitN(s[i + |sep|..], sep, if maxsplit < 0 then -1 else maxsplit - 1)
  }

  /** `s.split(sep)`. */
  function Split(s: string, sep: string): (parts: seq<string>)
    requires sep != []
    ensures |parts| >= 1
  {
    SplitN(s, sep, -1)
  }

  /** `sep.join(parts)`. */
  function Join(parts: seq<string>, sep: string): string {
    if parts == [] then ""
    else if |parts| == 1 then parts[0]
    else parts[0] + sep + Join(parts[1..], sep)
  }

  /** Joining the pieces of a split with the separator gives the string back. */
  lemma JoinCons(p: string, rest: seq<string>, sep: string)
    requires rest != []
    ensures Join([p] + rest, sep) == p + sep + Join(rest, sep)
  {
    assert ([p] + rest)[1..] == rest;
  }

  /** One split step: the piece before the leftmost separator, then the
      split of the rest. */
  lemma SplitNStep(s: string, sep: string, maxsplit: int, i: nat)
    requires sep != [] && maxsplit != 0 && IndexOf(s, sep) == Some(i)
    ensures SplitN(s, sep, maxsplit) == [s[..i]] + SplitN(s[i + |sep|..], sep, if maxsplit < 0 then -1 else maxsplit - 1)
    ensures s == s[..i] + sep + s[i + |sep|..]
  {
    assert s[i..i + |sep|] == sep;
    assert s == s[..i] + s[i..i + |sep|] + s[i + |sep|..];
  }

  lemma {:induction false} JoinSplitN(s: string, sep: string, maxsplit: int)
    requires sep != []
    ensures Join(SplitN(s, sep, maxsplit), sep) == s
    decreases |s|
  {
    if maxsplit != 0 && IndexOf(s, sep).Some? {
      var i := IndexOf(s, sep).value;
      var m := if maxsplit < 0 then -1 else maxsplit - 1;
      var tail := s[i + |sep|..];
      JoinSplitN(tail, sep, m);
      SplitNStep(s, sep, maxsplit, i);
      JoinCons(s[..i], SplitN(tail, sep, m), sep);
    }
  }

  lemma JoinSplit(s: string, sep: string)
    requires sep != []
    ensures Join(Split(s, sep), sep) == s
  {
    JoinSplitN(s, sep, -1);
  }

  /** Every piece of a split without limit is free of the separator. */
  lemma {:induction false} SplitPartsFree(s: string, sep: string)
    requires sep != []
    ensures forall k :: 0 <= k < |Split(s, sep)| ==> !Contains(Split(s, sep)[k], sep)
    decreases |s|
  {
    match IndexOf(s, sep)
    case None =>
    case Some(i) =>
      var tail := s[i + |sep|..];
      SplitPartsFree(tail, sep);
      assert Split(s, sep) == [s[..i]] + Split(tail, sep);
      if Contains(s[..i], sep) {
        var j := IndexOf(s[..i], sep).value;
        assert s[..i][j..j + |sep|] == s[j..j + |sep|];
        assert OccursAt(s, sep, j);
      }
  }

  /** A separator placed right after a piece free of its first character is
      the leftmost occurrence. */
  lemma FirstOccurrenceAfter(p0: string, sep: string, tail: string)
    requires sep != [] && sep[0] !in p0
    ensures IndexOf(p0 + sep + tail, sep) == Some(|p0|)
  {
    var s := p0 + sep + tail;
    assert s[|p0|..|p0| + |sep|] == sep;
    assert OccursAt(s, sep, |p0|);
    forall j | 0 <= j < |p0| ensures !OccursAt(s, sep, j) {
      assert s[j] == p0[j] != sep[0];
    }
  }

  /** A prefix free of the pattern's first character only shifts where the
      pattern is found. */
  lemma IndexOfSkip(x: string, y: string, p: string)
    requires p != [] && p[0] !in x
    ensures IndexOf(x + y, p).Some? <==> IndexOf(y, p).Some?
    ensures IndexOf(y, p).Some? ==> IndexOf(x + y, p).value == IndexOf(y, p).value + |x|
  {
    var s := x + y;
    forall j | 0 <= j < |x| ensures !OccursAt(s, p, j) {
      if j + |p| <= |s| {
        assert s[j..j + |p|][0] == x[j];
      }
    }
    forall j | |x| <= j ensures OccursAt(s, p, j) <==> OccursAt(y, p, j - |x|) {
      if j + |p| <= |s| {
        assert s[j..j + |p|] == y[j - |x|..j - |x| + |p|];
      }
    }
    var r := IndexOf(s, p);
    var q := IndexOf(y, p);
    if r.Some? {
      assert OccursAt(s, p, r.value);
      assert r.value >= |x|;
      assert OccursAt(y, p, r.value - |x|);
    }
    if q.Some? {
      assert OccursAt(s, p, q.value + |x|);
      assert r.Some?;
      assert r.value >= q.value + |x|;
    }
  }

  /** One step of the search: a pattern absent at the front is found in `s`
      exactly when it is found in `s[1..]`. */
  lemma IndexOfStep(s: string, p: string)
    requires |p| <= |s| && s[..|p|] != p
    ensures IndexOf(s, p).Some? <==> IndexOf(s[1..], p).Some?
  {
    assert !OccursAt(s, p, 0);
    if IndexOf(s, p).Some? {
      var i := IndexOf(s, p).value;
      OccursAtShift(s, p, i - 1);
    }
    if IndexOf(s[1..], p).Some? {
      OccursAtShift(s, p, IndexOf(s[1..], p).value);
    }
  }

  /** A pattern whose second character is missing from `x` and differs from
      its first is found first right after `x`. */
  lemma IndexOfSuffix(x: string, p: string)
    requires |p| >= 2 && p[1] != p[0] && p[1] !in x
    ensures IndexOf(x + p, p) == Some(|x|)
  {
    var s := x + p;
    assert s[|x|..|x| + |p|] == p;
    assert OccursAt(s, p, |x|);
    forall j | 0 <= j < |x| ensures !OccursAt(s, p, j) {
      assert j + 1 < |x| ==> s[j + 1] == x[j + 1];
    }
  }

  /** Unfolding one step of an unlimited split. */
  lemma SplitStep(s: string, sep: string, i: nat)
    requires sep != [] && IndexOf(s, sep) == Some(i)
    ensures Split(s, sep) == [s[..i]] + Split(s[i + |sep|..], sep)
  {
  }

  /** When no piece holds the separator's first character, splitting the
      joined string gives the pieces back (the other half of the round trip). */
  lemma {:induction false} SplitJoin(parts: seq<string>, sep: string)
    requires sep != [] && parts != []
    requires forall k :: 0 <= k < |parts| ==> sep[0] !in parts[k]
    ensures Split(Join(parts, sep), sep) == parts
    decreases |parts|
  {
    if |parts| == 1 {
      NotContainsFirstChar(parts[0], sep);
    } else {
      var p0, rest := parts[0], parts[1..];
      var tail := Join(rest, sep);
      var s := p0 + sep + tail;
      assert Join(parts, sep) == s;
      FirstOccurrenceAfter(p0, sep, tail);
      SplitStep(s, sep, |p0|);
      assert s[|p0| + |sep|..] == tail;
      assert s[..|p0|] == p0;
      SplitJoin(rest, sep);
      assert parts == [p0] + rest;
    }
  }

  /** `s.replace(target, replacement)`: every leftmost, non-overlapping
      occurrence of `target` replaced. */
  function Replace(s: string, target: string, replacement: string): string
    requires target != []
    decreases |s|
  {
    match IndexOf(s, target)
    case None => s
    case Some(i) => s[..i] + replacement + Replace(s[i + |target|..], target, replacement)
  }

  /** `Replace` agrees with Python's description of it: split on the target,
      join with the replacement. */
  lemma {:induction false} ReplaceIsSplitJoin(s: string, target: string, replacement: string)
    requires target != []
    ensures Replace(s, target, replacement) == Join(Split(s, target), replacement)
    decreases |s|
  {
    match IndexOf(s, target)
    case None =>
    case Some(i) =>
      var tail := s[i + |target|..];
      ReplaceIsSplitJoin(tail, target, replacement);
      var rest := Split(tail, target);
      assert Split(s, target) == [s[..i]] + rest;
      assert ([s[..i]] + rest)[1..] == rest;
  }

  /** A string in which every `c` has been turned into `d`, all else kept. */
  function SubstChar(s: string, c: char, d: char): (r: string)
    ensures |r| == |s|
    ensures forall k :: 0 <= k < |s| ==> r[k] == (if s[k] == c then d else s[k])
  {
    seq(|s|, k requires 0 <= k < |s| => if s[k] == c then d else s[k])
  }

  lemma SubstCharAbsent(s: string, c: char, d: char)
    requires c !in s
    ensures SubstChar(s, c, d) == s
  {
  }

  lemma SubstCharAround(a: string, b: string, c: char, d: char)
    ensures SubstChar(a + [c] + b, c, d) == SubstChar(a, c, d) + [d] + SubstChar(b, c, d)
  {
  }

  lemma CharNotBefore(s: string, c: char, i: nat)
    requires IndexOf(s, [c]) == Some(i)
    ensures c !in s[..i] && s[i] == c
  {
    assert s[i..i + 1][0] == s[i];
    forall k | 0 <= k < i ensures s[k] != c {
      assert !OccursAt(s, [c], k);
      assert s[k..k + 1] == [s[k]];
    }
  }

  lemma CharAbsent(s: string, c: char)
    requires IndexOf(s, [c]).None?
    ensures c !in s
  {
    forall k | 0 <= k < |s| ensures s[k] != c {
      assert !OccursAt(s, [c], k);
      assert s[k..k + 1] == [s[k]];
    }
  }

  /** Replacing a one-character target is a character-by-character
      substitution: it keeps the length and touches nothing else. */
  lemma {:induction false} ReplaceChar(s: string, c: char, d: char)
    ensures Replace(s, [c], [d]) == SubstChar(s, c, d)
    decreases |s|
  {
    match IndexOf(s, [c])
    case None =>
      CharAbsent(s, c);
      SubstCharAbsent(s, c, d);
    case Some(i) =>
      var tail := s[i + 1..];
      ReplaceChar(tail, c, d);
      CharNotBefore(s, c, i);
      SubstCharAbsent(s[..i], c, d);
      assert s == s[..i] + [c] + tail;
      SubstCharAround(s[..i], tail, c, d);
  }

  /** A string holding no occurrence of `target` is left as it is. */
  lemma ReplaceAbsent(s: string, target: string, replacement: string)
    requires target != [] && !Contains(s, target)
    ensures Replace(s, target, replacement) == s
  {
  }

  /** `s.split(sep)[0]`: the text before the first occurrence of `sep`. */
  function BeforeFirst(s: string, sep: string): (r: string)
    requires sep != []
    ensures IndexOf(s, sep).None? ==> r == s
    ensures IndexOf(s, sep).Some? ==> r == s[..IndexOf(s, sep).value]
    ensures !Contains(r, sep)
  {
    SplitPartsFree(s, sep);
    Split(s, sep)[0]
  }

  /** `s.split(sep)[-1]`: what follows the last occurrence that the
      left-to-right scan of `split` finds (see `AfterLastIsLastPart`). */
  function AfterLast(s: string, sep: string): string
    requires sep != []
    decreases |s|
  {
    match IndexOf(s, sep)
    case None => s
    case Some(i) => AfterLast(s[i + |sep|..], sep)
  }

  /** `AfterLast` is the last piece of the split. */
  lemma {:induction false} AfterLastIsLastPart(s: string, sep: string)
    requires sep != []
    ensures AfterLast(s, sep) == Split(s, sep)[|Split(s, sep)| - 1]
    decreases |s|
  {
    match IndexOf(s, sep)
    case None =>
    case Some(i) =>
      var tail := s[i + |sep|..];
      AfterLastIsLastPart(tail, sep);
      SplitStep(s, sep, i);
      var all, rest := Split(s, sep), Split(tail, sep);
      assert all == [s[..i]] + rest;
      assert all[|all| - 1] == rest[|rest| - 1];
  }

  lemma AfterLastStep(s: string, sep: string, i: nat)
    requires sep != [] && IndexOf(s, sep) == Some(i)
    ensures AfterLast(s, sep) == AfterLast(s[i + |sep|..], sep)
  {
  }

  /** `s.split(sep)[-1]` is a suffix of `s` with no `sep` in it, and all of
      `s` when `sep` does not occur. */
  lemma {:induction false} AfterLastSuffix(s: string, sep: string)
    requires sep != []
    ensures |AfterLast(s, sep)| <= |s|
    ensures AfterLast(s, sep) == s[|s| - |AfterLast(s, sep)|..]
    ensures !Contains(AfterLast(s, sep), sep)
    ensures !Contains(s, sep) ==> AfterLast(s, sep) == s
    decreases |s|
  {
    match IndexOf(s, sep)
    case None =>
    case Some(i) =>
      var tail := s[i + |sep|..];
      AfterLastSuffix(tail, sep);
      var r := AfterLast(tail, sep);
      assert s[|s| - |r|..] == tail[|tail| - |r|..];
  }

  /** An occurrence in a suffix is an occurrence in the whole string. */
  lemma OccursInSuffix(s: string, p: string, off: nat, j: nat)
    requires off <= |s| && OccursAt(s[off..], p, j)
    ensures OccursAt(s, p, off + j)
  {
    assert s[off..][j..j + |p|] == s[off + j..off + j + |p|];
  }

  /** One step of `AfterLastBoundary`: an occurrence at `i`, followed by a
      tail whose last part `r` is either all of it or preceded by `sep`. */
  lemma BoundaryStep(s: string, sep: string, i: nat, r: string, inTail: bool)
    requires OccursAt(s, sep, i) && |r| <= |s| - i - |sep|
    requires inTail ==> OccursAt(s[i + |sep|..], sep, |s| - i - |sep| - |r| - |sep|)
    requires !inTail ==> r == s[i + |sep|..]
    ensures OccursAt(s, sep, |s| - |r| - |sep|)
  {
    if inTail {
      OccursInSuffix(s, sep, i + |sep|, |s| - i - |sep| - |r| - |sep|);
    }
  }

  /** When `sep` occurs in `s`, it occurs right before the last part. */
  lemma {:induction false} AfterLastBoundary(s: string, sep: string)
    requires sep != []
    ensures Contains(s, sep) ==> OccursAt(s, sep, |s| - |AfterLast(s, sep)| - |sep|)
    decreases |s|
  {
    match IndexOf(s, sep)
    case None =>
    case Some(i) =>
      var tail := s[i + |sep|..];
      AfterLastBoundary(tail, sep);
      AfterLastSuffix(tail, sep);
      var r := AfterLast(tail, sep);
      assert AfterLast(s, sep) == r;
      BoundaryStep(s, sep, i, r, Contains(tail, sep));
  }

  /** `s.split(sep)[-1]` is a suffix of `s` with no `sep` in it; when `sep`
      occurs in `s` the text before that suffix ends with `sep`, and otherwise
      the suffix is all of `s`. */
  lemma AfterLastSpec(s: string, sep: string)
    requires sep != []
    ensures |AfterLast(s, sep)| <= |s|
    ensures AfterLast(s, sep) == s[|s| - |AfterLast(s, sep)|..]
    ensures !Contains(AfterLast(s, sep), sep)
    ensures !Contains(s, sep) ==> AfterLast(s, sep) == s
    ensures Contains(s, sep) ==> EndsWith(s[..|s| - |AfterLast(s, sep)|], sep)
  {
    AfterLastSuffix(s, sep);
    AfterLastBoundary(s, sep);
    if Contains(s, sep) {
      var cut := |s| - |AfterLast(s, sep)|;
      assert s[..cut][cut - |sep|..] == s[cut - |sep|..cut];
    }
  }

  /** Putting text in front keeps an ending. */
  lemma EndsWithAppend(a: string, b: string, p: string)
    requires EndsWith(b, p)
    ensures EndsWith(a + b, p)
  {
    assert (a + b)[|a + b| - |p|..] == b[|b| - |p|..];
  }

  /** A separator occurring once, after a piece and before a tail both free
      of its first character, leaves the tail as the last part. */
  lemma AfterLastOnly(p0: string, sep: string, tail: string)
    requires sep != [] && sep[0] !in p0 && sep[0] !in tail
    ensures AfterLast(p0 + sep + tail, sep) == tail
  {
    var s := p0 + sep + tail;
    FirstOccurrenceAfter(p0, sep, tail);
    AfterLastStep(s, sep, |p0|);
    assert s[|p0| + |sep|..] == tail;
    NotContainsFirstChar(tail, sep);
    AfterLastSpec(tail, sep);
  }

  /** The text after the last single-character separator is whatever
      follows its final occurrence. */
  lemma {:induction false} AfterLastChar(s: string, c: char, tail: string)
    requires c !in tail
    ensures AfterLast(s + [c] + tail, [c]) == tail
    decreases |s|
  {
    var u := s + [c] + tail;
    assert u[|s|..|s| + 1] == [c];
    assert OccursAt(u, [c], |s|);
    var i := IndexOf(u, [c]).value;
    assert i <= |s|;
    AfterLastStep(u, [c], i);
    if i == |s| {
      assert u[i + 1..] == tail;
      NotContainsFirstChar(tail, [c]);
    } else {
      assert u[i + 1..] == s[i + 1..] + [c] + tail;
      AfterLastChar(s[i + 1..], c, tail);
    }
  }

  /** The last part of a split on one character holds no such character. */
  lemma AfterLastCharFree(s: string, c: char)
    ensures c !in AfterLast(s, [c])
  {
    AfterLastSpec(s, [c]);
    CharAbsent(AfterLast(s, [c]), c);
  }

  /** `s.rfind(c)`, with `None` for -1: the rightmost position of `c`. */
  function RFind(s: string, c: char): (r: Option<nat>)
    ensures r.Some? ==> r.value < |s| && s[r.value] == c
    ensures r.Some? ==> forall k :: r.value < k < |s| ==> s[k] != c
    ensures r.None? <==> c !in s
  {
    if s == [] then None
    else if s[|s| - 1] == c then Some(|s| - 1)
    else
      var r := RFind(s[..|s| - 1], c);
      assert s == s[..|s| - 1] + [s[|s| - 1]];
      r
  }

  /** `s.endswith(p)`. */
  predicate EndsWith(s: string, p: string) {
    |p| <= |s| && s[|s| - |p|..] == p
  }

  /** `s.lstrip(chars)`. */
  function StripLeft(s: string, chars: set<char>): (r: string)
    ensures |r| <= |s|
    ensures r != [] ==> r[0] !in chars
    decreases |s|
  {
    if s != [] && s[0] in chars then StripLeft(s[1..], chars) else s
  }

  /** `lstrip` keeps a suffix. */
  lemma {:induction false} StripLeftSuffix(s: string, chars: set<char>)
    ensures StripLeft(s, chars) == s[|s| - |StripLeft(s, chars)|..]
    decreases |s|
  {
    if s != [] && s[0] in chars {
      StripLeftSuffix(s[1..], chars);
      assert s[1..][|s| - 1 - |StripLeft(s[1..], chars)|..] == s[|s| - |StripLeft(s[1..], chars)|..];
    }
  }

  /** Everything `lstrip` removes belongs to `chars`. */
  lemma {:induction false} StripLeftRemoved(s: string, chars: set<char>)
    ensures forall k :: 0 <= k < |s| - |StripLeft(s, chars)| ==> s[k] in chars
    decreases |s|
  {
    if s != [] && s[0] in chars {
      StripLeftRemoved(s[1..], chars);
      assert forall k :: 1 <= k < |s| ==> s[k] == s[1..][k - 1];
    }
  }

  /** Stripping a run of `chars` in front of a string that does not start
      with one of them leaves that string. */
  lemma {:induction false} StripLeftRun(w: string, s: string, chars: set<char>)
    requires forall k :: 0 <= k < |w| ==> w[k] in chars
    requires s == [] || s[0] !in chars
    ensures StripLeft(w + s, chars) == s
    decreases |w|
  {
    if w == [] {
      assert w + s == s;
    } else {
      assert (w + s)[1..] == w[1..] + s;
      StripLeftRun(w[1..], s, chars);
    }
  }

  /** `s.rstrip(chars)`. */
  function StripRight(s: string, chars: set<char>): (r: string)
    ensures |r| <= |s|
    ensures r != [] ==> r[|r| - 1] !in chars
    decreases |s|
  {
    if s != [] && s[|s| - 1] in chars then StripRight(s[..|s| - 1], chars) else s
  }

  /** `rstrip` keeps a prefix. */
  lemma {:induction false} StripRightPrefix(s: string, chars: set<char>)
    ensures StripRight(s, chars) == s[..|StripRight(s, chars)|]
    decreases |s|
  {
    if s != [] && s[|s| - 1] in chars {
      StripRightPrefix(s[..|s| - 1], chars);
      assert s[..|s| - 1][..|StripRight(s[..|s| - 1], chars)|] == s[..|StripRight(s[..|s| - 1], chars)|];
    }
  }

  /** Everything `rstrip` removes belongs to `chars`. */
  lemma {:induction false} StripRightRemoved(s: string, chars: set<char>)
    ensures forall k :: |StripRight(s, chars)| <= k < |s| ==> s[k] in chars
    decreases |s|
  {
    if s != [] && s[|s| - 1] in chars {
      StripRightRemoved(s[..|s| - 1], chars);
      assert forall k :: 0 <= k < |s| - 1 ==> s[k] == s[..|s| - 1][k];
    }
  }

  /** `s.strip(chars)`: what is left once every leading and trailing
      character from `chars` is removed. */
  function Strip(s: string, chars: set<char>): (r: string)
    ensures |r| <= |s|
    ensures r != [] ==> r[0] !in chars && r[|r| - 1] !in chars
  {
    StripRightPrefix(StripLeft(s, chars), chars);
    StripRight(StripLeft(s, chars), chars)
  }

  /** Stripping cannot reach into a separator that ends in a kept
      character, so cutting the stripped text before its first separator
      keeps the unpadded piece in front of it. */
  lemma StripThenCut(pre: string, sep: string, rest: string, chars: set<char>)
    requires pre != [] && pre[0] !in chars
    requires sep != [] && sep[0] !in pre && sep[|sep| - 1] !in chars
    ensures BeforeFirst(Strip(pre + sep + rest, chars), sep) == pre
  {
    var p := pre + sep;
    var body := p + rest;
    assert pre + sep + rest == body;
    var r := Strip(body, chars);
    assert StripLeft(body, chars) == body;
    assert r == StripRight(body, chars);
    StripRightPrefix(body, chars);
    StripRightRemoved(body, chars);
    assert body[|p| - 1] == sep[|sep| - 1];
    assert |r| >= |p|;
    assert r[..|p|] == p;
    assert r == pre + sep + r[|p|..];
    FirstOccurrenceAfter(pre, sep, r[|p|..]);
    assert r[..|pre|] == pre;
  }

  /** A string whose ends are not `c`, with one `c` appended, strips back to
      itself. */
  lemma StripOneTrailing(name: string, c: char)
    requires name != [] && name[0] != c && name[|name| - 1] != c
    ensures Strip(name + [c], {c}) == name
  {
    var head := name + [c];
    assert StripLeft(head, {c}) == head;
    assert head[..|head| - 1] == name;
    assert StripRight(name, {c}) == name;
  }

  /** A prefix `r` of a suffix `l` of `s` sits in the middle of `s`; when
      what `s` loses before `l` and what `l` loses after `r` belong to
      `chars`, so does everything around `r`. */
  lemma MiddleOf(s: string, l: string, r: string, chars: set<char>)
    requires |l| <= |s| && l == s[|s| - |l|..]
    requires |r| <= |l| && r == l[..|r|]
    requires forall k :: 0 <= k < |s| - |l| ==> s[k] in chars
    requires forall k :: |r| <= k < |l| ==> l[k] in chars
    ensures var lead := |s| - |l|;
      && lead + |r| <= |s|
      && r == s[lead..lead + |r|]
      && (forall k :: 0 <= k < lead ==> s[k] in chars)
      && (forall k :: lead + |r| <= k < |s| ==> s[k] in chars)
  {
    var lead := |s| - |l|;
    forall k | lead + |r| <= k < |s|
      ensures s[k] in chars
    {
      assert s[k] == l[k - lead];
    }
  }

  /** `Strip` removes only end characters: the result is the middle of `s`,
      and everything cut from either end belongs to `chars`. */
  lemma StripIsInfix(s: string, chars: set<char>)
    ensures var lead := |s| - |StripLeft(s, chars)|;
      && lead + |Strip(s, chars)| <= |s|
      && Strip(s, chars) == s[lead..lead + |Strip(s, chars)|]
      && (forall k :: 0 <= k < lead ==> s[k] in chars)
      && (forall k :: lead + |Strip(s, chars)| <= k < |s| ==> s[k] in chars)
  {
    var l := StripLeft(s, chars);
    StripLeftSuffix(s, chars);
    StripRightPrefix(l, chars);
    StripLeftRemoved(s, chars);
    StripRightRemoved(l, chars);
    MiddleOf(s, l, StripRight(l, chars), chars);
  }

  /** A string that neither starts nor ends with a character of `chars` is
      its own strip. */
  lemma StripUnchanged(s: string, chars: set<char>)
    requires s == [] || (s[0] !in chars && s[|s| - 1] !in chars)
    ensures Strip(s, chars) == s
  {
  }

  /** The concatenation of a list of sequences, in order (`"".join(parts)`,
      `text += part` in a loop, `numpy.concatenate`). */
  function Concat<T>(parts: seq<seq<T>>): seq<T> {
    if parts == [] then [] else Concat(parts[..|parts| - 1]) + parts[|parts| - 1]
  }

  /** Total length of a list of sequences. */
  function TotalLength<T>(parts: seq<seq<T>>): nat {
    if parts == [] then 0 else TotalLength(parts[..|parts| - 1]) + |parts[|parts| - 1]|
  }

  lemma {:induction false} ConcatLength<T>(parts: seq<seq<T>>)
    ensures |Concat(parts)| == TotalLength(parts)
  {
    if parts != [] {
      ConcatLength(parts[..|parts| - 1]);
    }
  }

  /** Concatenating one more piece of a list appends that piece. */
  lemma ConcatPrefixStep<T>(parts: seq<seq<T>>, i: nat)
    requires i < |parts|
    ensures Concat(parts[..i + 1]) == Concat(parts[..i]) + parts[i]
  {
    assert parts[..i + 1][..i] == parts[..i];
  }

  /** Concatenation distributes over appending lists, so the pieces appear in
      their original order. */
  lemma {:induction false} ConcatAppend<T>(a: seq<seq<T>>, b: seq<seq<T>>)
    ensures Concat(a + b) == Concat(a) + Concat(b)
    decreases |b|
  {
    if b != [] {
      var b' := b[..|b| - 1];
      assert (a + b)[..|a + b| - 1] == a + b';
      ConcatAppend(a, b');
    } else {
      assert a + b == a;
    }
  }

  predicate IsDigits(s: string) {
    forall k :: 0 <= k < |s| ==> '0' <= s[k] <= '9'
  }

  /** The decimal digit for `d`. */
  function DigitChar(d: nat): char
    requires d < 10
  {
    "0123456789"[d]
  }

  /** `str(n)` for a natural number: its decimal digits, no leading zeros. */
  function NatToString(n: nat): (r: string)
    ensures |r| >= 1
    ensures IsDigits(r)
    decreases n
  {
    if n < 10 then [DigitChar(n)] else NatToString(n / 10) + [DigitChar(n % 10)]
  }

  /** The number a string of decimal digits denotes. */
  function DigitsValue(s: string): nat
    requires IsDigits(s)
  {
    if s == [] then 0 else 10 * DigitsValue(s[..|s| - 1]) + (s[|s| - 1] as int - '0' as int)
  }

  /** Reading the digits of `str(n)` back gives `n`. */
  lemma {:induction false} NatToStringValue(n: nat)
    ensures DigitsValue(NatToString(n)) == n
    decreases n
  {
    if n >= 10 {
      NatToStringValue(n / 10);
      var s := NatToString(n);
      assert s[..|s| - 1] == NatToString(n / 10);
    }
  }

  /** `"{:0Nd}".format(n)`: a minus sign for a negative number, then the
      digits, zero-filled on the left to a total width of at least `width`. */
  function FormatInt(n: int, width: nat): (r: string)
  {
    if n < 0 then "-" + ZeroFill(NatToString(-n), if width > 0 then width - 1 else 0)
    else ZeroFill(NatToString(n), width)
  }

  /** Left-pad with `'0'` up to `width` characters. */
  function ZeroFill(digits: string, width: nat): (r: string)
    ensures |r| == if |digits| < width then width else |digits|
    ensures r == Zeros(|r| - |digits|) + digits
  {
    Zeros(if |digits| < width then width - |digits| else 0) + digits
  }

  /** A number below `10^width` is printed with exactly `width` digits, and
      those digits read back as the number. */
  lemma FormatIntFixed(n: nat, width: nat)
    requires n < Pow10(width)
    ensures |FormatInt(n, width)| == width || (width == 0 && |FormatInt(n, width)| == 1)
    ensures IsDigits(FormatInt(n, width))
    ensures DigitsValue(FormatInt(n, width)) == n
  {
    NatToStringLength(n, width);
    NatToStringValue(n);
    var d := NatToString(n);
    var r := FormatInt(n, width);
    LeadingZeros(|r| - |d|, d);
  }

  function Pow10(k: nat): nat {
    if k == 0 then 1 else 10 * Pow10(k - 1)
  }

  lemma {:induction false} NatToStringLength(n: nat, width: nat)
    requires n < Pow10(width)
    ensures |NatToString(n)| <= width || (width == 0 && |NatToString(n)| == 1)
    decreases n
  {
    if n >= 10 {
      assert width >= 2;
      NatToStringLength(n / 10, width - 1);
    }
  }

  /** Zeros in front of a digit string do not change its value. */
  lemma {:induction false} LeadingZeros(z: nat, d: string)
    requires IsDigits(d)
    ensures IsDigits(Zeros(z) + d)
    ensures DigitsValue(Zeros(z) + d) == DigitsValue(d)
    decreases |d|
  {
    var s := Zeros(z) + d;
    if d == [] {
      assert s == Zeros(z);
      AllZeros(z);
    } else {
      LeadingZeros(z, d[..|d| - 1]);
      assert s[..|s| - 1] == Zeros(z) + d[..|d| - 1];
    }
  }

  function Zeros(z: nat): (r: string)
    ensures |r| == z && IsDigits(r)
  {
    seq(z, _ => '0')
  }

  lemma {:induction false} AllZeros(z: nat)
    ensures DigitsValue(Zeros(z)) == 0
  {
    if z > 0 {
      AllZeros(z - 1);
      assert Zeros(z)[..z - 1] == Zeros(z - 1);
    }
  }
}
