/**
 * The string operations the script relies on: whitespace as Python's
 * `str.isspace` sees it, `str.strip()`, the first word of `str.split()`,
 * `sep.join(xs)` and `s.split(c)`.
 */
module Text {

  /** The characters for which Python's `str.isspace()` holds. */
  predicate IsSpace(c: char) {
    || c == ' '
    || '\t' <= c <= '\r'
    || '\U{1C}' <= c <= '\U{1F}'
    || c == '\U{85}' || c == '\U{A0}' || c == '\U{1680}'
    || '\U{2000}' <= c <= '\U{200A}'
    || c == '\U{2028}' || c == '\U{2029}' || c == '\U{202F}' || c == '\U{205F}' || c == '\U{3000}'
  }

  ghost predicate AllSpace(s: string) {
    forall j | 0 <= j < |s| :: IsSpace(s[j])
  }

  /** Number of whitespace characters at the start of `s`. */
  function Lead(s: string): (n: nat)
    ensures n <= |s|
    ensures forall j | 0 <= j < n :: IsSpace(s[j])
    ensures n < |s| ==> !IsSpace(s[n])
  {
    if s != [] && IsSpace(s[0]) then 1 + Lead(s[1..]) else 0
  }

  /** Number of whitespace characters at the end of `s`. */
  function Trail(s: string): (n: nat)
    ensures n <= |s|
    ensures forall j | |s| - n <= j < |s| :: IsSpace(s[j])
    ensures n < |s| ==> !IsSpace(s[|s| - 1 - n])
  {
    if s != [] && IsSpace(s[|s| - 1]) then 1 + Trail(s[..|s| - 1]) else 0
  }

  /** `r` is `s[i..]` cut short, with only whitespace before it and after it. */
  ghost predicate Trimmed(s: string, i: int, r: string) {
    && 0 <= i <= |s| - |r|
    && r == s[i..i + |r|]
    && (forall j | 0 <= j < i :: IsSpace(s[j]))
    && (forall j | i + |r| <= j < |s| :: IsSpace(s[j]))
  }

  /**
   * Python's `s.strip()`: `s` without its leading and trailing whitespace.
   * The result is the slice of `s` left once only whitespace is removed on
   * either side, and it neither starts nor ends with whitespace.
   */
  function Strip(s: string): (r: string)
    ensures |r| <= |s|
    ensures r == [] <==> AllSpace(s)
    ensures r != [] ==> !IsSpace(r[0]) && !IsSpace(r[|r| - 1])
    ensures exists i :: Trimmed(s, i, r)
  {
    var i := Lead(s);
    var t := s[i..];
    var r := t[..|t| - Trail(t)];
    assert r == s[i..i + |r|];
    assert Trimmed(s, i, r);
    r
  }

  /** Stripping a string that has no whitespace at either end leaves it as it is. */
  lemma StripUnchanged(s: string)
    requires s != [] && !IsSpace(s[0]) && !IsSpace(s[|s| - 1])
    ensures Strip(s) == s
  {
    assert Lead(s) == 0;
    assert Trail(s) == 0;
  }

  /** Stripping twice is stripping once. */
  lemma StripIdempotent(s: string)
    ensures Strip(Strip(s)) == Strip(s)
  {
    if Strip(s) != [] {
      StripUnchanged(Strip(s));
    }
  }

  /** Number of non-whitespace characters at the start of `s`. */
  function WordLen(s: string): (n: nat)
    ensures n <= |s|
    ensures forall j | 0 <= j < n :: !IsSpace(s[j])
    ensures n < |s| ==> IsSpace(s[n])
  {
    if s != [] && !IsSpace(s[0]) then 1 + WordLen(s[1..]) else 0
  }

  /** `w` is `s[i..]` up to the next whitespace, with only whitespace before it. */
  ghost predicate LeadingWord(s: string, i: int, w: string) {
    && 0 <= i <= |s| - |w|
    && w == s[i..i + |w|]
    && (forall j | 0 <= j < i :: IsSpace(s[j]))
    && (i + |w| == |s| || IsSpace(s[i + |w|]))
  }

  /**
   * Python's `s.split()[0]`: the first maximal run of non-whitespace
   * characters. Python raises IndexError when `s` has no such run, so the
   * caller must supply a string with a non-whitespace character.
   */
  function FirstWord(s: string): (w: string)
    requires !AllSpace(s)
    ensures w != []
    ensures forall j | 0 <= j < |w| :: !IsSpace(w[j])
    ensures exists i :: LeadingWord(s, i, w)
  {
    var i := Lead(s);
    var t := s[i..];
    var w := t[..WordLen(t)];
    assert w == s[i..i + |w|];
    assert LeadingWord(s, i, w);
    w
  }

  /**
   * Python's `sep.join(xs)`: nothing for no parts, otherwise the first part,
   * then a separator when more parts follow.
   */
  function Join(sep: string, xs: seq<string>): (r: string)
    ensures xs == [] ==> r == []
    ensures xs != [] ==> xs[0] <= r
    ensures |xs| >= 2 ==> xs[0] + sep <= r
  {
    if xs == [] then []
    else if |xs| == 1 then xs[0]
    else xs[0] + sep + Join(sep, xs[1..])
  }

  /** The joined text is as long as the parts plus one separator between each two of them. */
  lemma {:induction false} JoinLength(sep: string, xs: seq<string>)
    requires xs != []
    ensures |Join(sep, xs)| == Total(xs) + (|xs| - 1) * |sep|
  {
    if |xs| > 1 {
      JoinLength(sep, xs[1..]);
    }
  }

  /** Sum of the lengths of the strings in `xs`. */
  function Total(xs: seq<string>): nat {
    if xs == [] then 0 else |xs[0]| + Total(xs[1..])
  }

  /** Index of the first `c` in `s`, or `|s|` when there is none. */
  function IndexOf(s: string, c: char): (k: nat)
    ensures k <= |s|
    ensures k < |s| ==> s[k] == c
    ensures forall j | 0 <= j < k :: s[j] != c
  {
    if s == [] then 0 else if s[0] == c then 0 else 1 + IndexOf(s[1..], c)
  }

  /**
   * The parts of `s` between occurrences of `c`, as Python's `s.split(c)`
   * gives them: always at least one part. With `c` the newline this is how
   * the picker reads the candidates printed to it one per line; `print` adds
   * a final newline that `Join` leaves out, and that newline only ends the
   * last line, so it adds no entry.
   */
  function SplitOn(s: string, c: char): (parts: seq<string>)
    ensures parts != []
    ensures forall p | p in parts :: c !in p
    decreases |s|
  {
    var k := IndexOf(s, c);
    if k == |s| then [s] else [s[..k]] + SplitOn(s[k + 1..], c)
  }

  /** Joining on `c` and splitting on `c` gives back the list when no part contains `c`. */
  lemma {:induction false} SplitJoin(xs: seq<string>, c: char)
    requires xs != []
    requires forall x | x in xs :: c !in x
    ensures SplitOn(Join([c], xs), c) == xs
  {
    if |xs| == 1 {
      IndexOfAbsent(xs[0], c);
    } else {
      var s := Join([c], xs);
      var rest := Join([c], xs[1..]);
      assert s == xs[0] + [c] + rest;
      IndexOfAbsent(xs[0], c);
      assert IndexOf(s, c) == |xs[0]| by {
        assert s == xs[0] + ([c] + rest);
        IndexOfAfter(xs[0], c, [c] + rest);
      }
      assert s[..|xs[0]|] == xs[0];
      assert s[|xs[0]| + 1..] == rest;
      SplitJoin(xs[1..], c);
    }
  }

  /** Splitting on `c` and joining on `c` gives back the text. */
  lemma {:induction false} JoinSplit(s: string, c: char)
    ensures Join([c], SplitOn(s, c)) == s
    decreases |s|
  {
    var k := IndexOf(s, c);
    if k < |s| {
      var rest := SplitOn(s[k + 1..], c);
      assert SplitOn(s, c) == [s[..k]] + rest;
      JoinSplit(s[k + 1..], c);
      JoinCons([c], s[..k], rest);
      calc {
        Join([c], SplitOn(s, c));
        Join([c], [s[..k]] + rest);
        s[..k] + [c] + Join([c], rest);
        s[..k] + [s[k]] + s[k + 1..];
        { Around(s, k); }
        s;
      }
    }
  }

  /** A text is what stands before position `k`, the character at `k`, and what follows. */
  lemma Around(s: string, k: nat)
    requires k < |s|
    ensures s[..k] + [s[k]] + s[k + 1..] == s
  {
  }

  /** Joining a part in front of a non-empty list puts one separator after it. */
  lemma JoinCons(sep: string, x: string, rest: seq<string>)
    requires rest != []
    ensures Join(sep, [x] + rest) == x + sep + Join(sep, rest)
  {
    assert ([x] + rest)[1..] == rest;
  }

  lemma {:induction false} IndexOfAbsent(s: string, c: char)
    requires c !in s
    ensures IndexOf(s, c) == |s|
  {
    if s != [] {
      IndexOfAbsent(s[1..], c);
    }
  }

  lemma {:induction false} IndexOfAfter(s: string, c: char, t: string)
    requires c !in s && t != [] && t[0] == c
    ensures IndexOf(s + t, c) == |s|
  {
    if s != [] {
      assert (s + t)[1..] == s[1..] + t;
      IndexOfAfter(s[1..], c, t);
    }
  }
}
