/**
 * `extract_urls` (the length and parse filter over the regex matches) and the
 * top-level loop that strips each captured line, skips blank ones and gathers
 * the URLs of the others in order.
 */
module Extract {
  import opened Wrappers
  import opened Text
  import opened UrlPattern

  /** The longest URL the script keeps. */
  const MAX_URL_LENGTH: nat := 8192

  /** The fields of `urllib.parse.urlparse`'s result that the filter reads. */
  datatype ParsedUrl = ParsedUrl(scheme: string, netloc: string, path: string)

  /**
   * `urllib.parse.urlparse`, a library function outside this model, given as
   * a parameter; None stands for a call that raised.
   */
  type Parser = string -> Option<ParsedUrl>

  /**
   * The parse check exactly as grouped in the source:
   * `(scheme in (...) and netloc) or path`.
   */
  function Parses(p: ParsedUrl): (ok: bool)
    ensures p.path != [] ==> ok
    ensures ok && p.path == [] ==> p.scheme in ["http", "https", "file"] && p.netloc != []
    ensures ok ==> p.path != [] || p.netloc != []
  {
    (p.scheme in ["http", "https", "file"] && p.netloc != []) || p.path != []
  }

  /** A candidate survives: not longer than MAX_URL_LENGTH, parses, and passes the check. */
  predicate Keeps(parse: Parser, url: string) {
    && |url| <= MAX_URL_LENGTH
    && parse(url).Some?
    && Parses(parse(url).value)
  }

  /** The candidates that survive, in their order. */
  function Kept(parse: Parser, candidates: seq<string>): (kept: seq<string>)
    ensures forall u | u in kept :: u in candidates && Keeps(parse, u)
    ensures forall u | u in candidates && Keeps(parse, u) :: u in kept
    ensures |kept| <= |candidates|
  {
    if candidates == [] then []
    else
      var init := candidates[..|candidates| - 1];
      var last := candidates[|candidates| - 1];
      assert candidates == init + [last];
      Kept(parse, init) + (if Keeps(parse, last) then [last] else [])
  }

  /** Filtering one more candidate appends it exactly when it survives. */
  lemma KeptLast(parse: Parser, init: seq<string>, last: string)
    ensures Kept(parse, init + [last]) == Kept(parse, init) + (if Keeps(parse, last) then [last] else [])
  {
    assert (init + [last])[..|init|] == init;
  }

  /** What `extract_urls(line)` returns: matches of the pattern in the line that survive the checks. */
  function Extracted(parse: Parser, line: string): (urls: seq<string>)
    ensures forall u | u in urls :: u in FindAll(line) && Keeps(parse, u)
  {
    Kept(parse, FindAll(line))
  }

  /**
   * `extract_urls`: runs the pattern over the line, then keeps each match in
   * turn unless it is too long, `urlparse` raises, or the parse check fails.
   */
  method ExtractUrls(parse: Parser, line: string) returns (valid: seq<string>)
    ensures valid == Extracted(parse, line)
    ensures forall u | u in valid :: IsUrl(u) && |u| <= MAX_URL_LENGTH
  {
    var potential := FindAll(line);
    valid := [];
    for i := 0 to |potential|
      invariant valid == Kept(parse, potential[..i])
    {
      var url := potential[i];
      PrefixStep(potential, i);
      KeptLast(parse, potential[..i], url);
      if |url| > MAX_URL_LENGTH {
        assert Kept(parse, potential[..i + 1]) == valid;
        continue;
      }
      var parsed := parse(url);
      if parsed.None? {
        assert Kept(parse, potential[..i + 1]) == valid;
        continue;
      }
      if Parses(parsed.value) {
        valid := valid + [url];
      }
      assert Kept(parse, potential[..i + 1]) == valid;
    }
    assert potential[..|potential|] == potential;
  }

  /** The URLs a captured line contributes: none when it is blank once stripped. */
  function LineUrls(parse: Parser, line: string): (urls: seq<string>)
    ensures AllSpace(line) ==> urls == []
    ensures !AllSpace(line) ==> urls == Extracted(parse, Strip(line))
    ensures forall u | u in urls :: Keeps(parse, u)
  {
    var stripped := Strip(line);
    if stripped == [] then [] else Extracted(parse, stripped)
  }

  /** The concatenation of `f(x)` over the elements `x` of `xs`, in order. */
  function FlatMap(f: string -> seq<string>, xs: seq<string>): seq<string> {
    if xs == [] then []
    else FlatMap(f, xs[..|xs| - 1]) + f(xs[|xs| - 1])
  }

  /** The URLs of all captured lines, top to bottom. */
  function Collected(parse: Parser, lines: seq<string>): seq<string> {
    FlatMap(line => LineUrls(parse, line), lines)
  }

  /**
   * The loop over the captured lines: strip each, skip it when empty,
   * otherwise append what `extract_urls` finds in it.
   */
  method CollectUrls(parse: Parser, lines: seq<string>) returns (urls: seq<string>)
    ensures urls == Collected(parse, lines)
    ensures forall u | u in urls :: IsUrl(u) && |u| <= MAX_URL_LENGTH
  {
    urls := [];
    for i := 0 to |lines|
      invariant urls == Collected(parse, lines[..i])
      invariant forall u | u in urls :: IsUrl(u) && |u| <= MAX_URL_LENGTH
    {
      PrefixStep(lines, i);
      CollectedLast(parse, lines[..i + 1], lines[..i], lines[i]);
      var line := Strip(lines[i]);
      if line == [] {
        continue;
      }
      var found := ExtractUrls(parse, line);
      urls := urls + found;
    }
    assert lines[..|lines|] == lines;
  }

  /** The first `i + 1` elements are the first `i` and then element `i`. */
  lemma PrefixStep(xs: seq<string>, i: nat)
    requires i < |xs|
    ensures xs[..i + 1] == xs[..i] + [xs[i]]
  {
  }

  /** The URLs of the lines are those of all but the last, then the last line's. */
  lemma CollectedLast(parse: Parser, lines: seq<string>, init: seq<string>, last: string)
    requires lines == init + [last]
    ensures Collected(parse, lines) == Collected(parse, init) + LineUrls(parse, last)
  {
    FlatMapLast(line => LineUrls(parse, line), lines, init, last);
  }

  /** Mapping over all but the last element, then the last one. */
  lemma FlatMapLast(f: string -> seq<string>, xs: seq<string>, init: seq<string>, last: string)
    requires xs == init + [last]
    ensures FlatMap(f, xs) == FlatMap(f, init) + f(last)
  {
    assert xs[..|xs| - 1] == init;
  }

  /** Mapping over two lists joined is mapping over each, joined. */
  lemma {:induction false} FlatMapAppend(f: string -> seq<string>, front: seq<string>, back: seq<string>)
    ensures FlatMap(f, front + back) == FlatMap(f, front) + FlatMap(f, back)
    decreases |back|
  {
    if back == [] {
      assert front + back == front;
    } else {
      var init, last := back[..|back| - 1], back[|back| - 1];
      assert back == init + [last];
      assert front + back == (front + init) + [last];
      FlatMapLast(f, front + back, front + init, last);
      FlatMapLast(f, back, init, last);
      FlatMapAppend(f, front, init);
    }
  }

  /** The lines' URLs are those of the first lines followed by those of the rest. */
  lemma CollectedAppend(parse: Parser, front: seq<string>, back: seq<string>)
    ensures Collected(parse, front + back) == Collected(parse, front) + Collected(parse, back)
  {
    FlatMapAppend(line => LineUrls(parse, line), front, back);
  }

  /** An element mapped to nothing can be dropped. */
  lemma FlatMapSkip(f: string -> seq<string>, front: seq<string>, x: string, back: seq<string>)
    requires f(x) == []
    ensures FlatMap(f, front + [x] + back) == FlatMap(f, front + back)
  {
    FlatMapAppend(f, front + [x], back);
    FlatMapLast(f, front + [x], front, x);
    FlatMapAppend(f, front, back);
  }

  /** A line that is blank once stripped contributes nothing, wherever it stands. */
  lemma CollectedSkipsBlank(parse: Parser, front: seq<string>, blank: string, back: seq<string>)
    requires AllSpace(blank)
    ensures Collected(parse, front + [blank] + back) == Collected(parse, front + back)
  {
    var f := line => LineUrls(parse, line);
    assert f(blank) == [];
    FlatMapSkip(f, front, blank, back);
  }

  /** Every gathered URL was extracted from one of the captured lines. */
  lemma {:induction false} CollectedFrom(parse: Parser, lines: seq<string>, u: string)
    requires u in Collected(parse, lines)
    ensures exists j | 0 <= j < |lines| :: u in LineUrls(parse, lines[j])
  {
    var init := lines[..|lines| - 1];
    if u in Collected(parse, init) {
      CollectedFrom(parse, init, u);
      var j :| 0 <= j < |init| && u in LineUrls(parse, init[j]);
      assert lines[j] == init[j];
    } else {
      assert u in LineUrls(parse, lines[|lines| - 1]);
    }
  }
}
