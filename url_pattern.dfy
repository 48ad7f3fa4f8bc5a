/**
 * The pattern `(?:https?|file)://[A]+[B]+` of `extract_urls`, where A is the
 * character class `-a-zA-Z0-9@:%_+.~#?&/=` and B is `-a-zA-Z0-9@%_+.~#?&/=!`,
 * and Python's `re.findall` over it.
 *
 * `Shape` and `IsUrl` say declaratively which texts the pattern matches.
 * `MatchAt` is the backtracking matcher: the scheme, then the longest run of
 * class A, backing off one character at a time until a class-B character
 * follows, then the longest run of class B. `Scan` is `re.findall`: leftmost
 * matches, each taken from the position just after the previous one.
 */
module UrlPattern {
  import opened Wrappers

  predicate IsAlnum(c: char) {
    'a' <= c <= 'z' || 'A' <= c <= 'Z' || '0' <= c <= '9'
  }

  /** Class A, the body of the URL: letters, digits and `-@:%_+.~#?&/=`. */
  function InA(c: char): (ok: bool)
    ensures ok ==> '!' < c <= '~'
  {
    IsAlnum(c) || c in "-@:%_+.~#?&/="
  }

  /** Class B, the end of the URL: class A without `:`, plus `!`. */
  function InB(c: char): (ok: bool)
    ensures ok ==> '!' <= c <= '~' && c != ':'
  {
    IsAlnum(c) || c in "-@%_+.~#?&/=!"
  }

  /** Class B is exactly class A without `:`, plus `!`. */
  lemma ClassB(c: char)
    ensures InB(c) <==> (InA(c) && c != ':') || c == '!'
  {
  }

  /** The three prefixes `(?:https?|file)://` admits. */
  predicate IsScheme(w: string) {
    w == "http://" || w == "https://" || w == "file://"
  }

  ghost predicate AllIn(s: string, lo: int, hi: int, inClass: char -> bool)
    requires 0 <= lo <= hi <= |s|
  {
    forall j | lo <= j < hi :: inClass(s[j])
  }

  /**
   * `s[i..e]` matches the pattern with scheme `s[i..a]`, class-A part
   * `s[a..b]` and class-B part `s[b..e]`, neither part empty.
   */
  ghost predicate Shape(s: string, i: int, a: int, b: int, e: int) {
    && 0 <= i < a < b < e <= |s|
    && IsScheme(s[i..a])
    && AllIn(s, a, b, InA)
    && AllIn(s, b, e, InB)
  }

  /** `s[i..e]` matches the pattern. */
  ghost predicate MatchesSpan(s: string, i: int, e: int) {
    exists a, b :: Shape(s, i, a, b, e)
  }

  /** The whole of `t` matches the pattern. */
  ghost predicate IsUrl(t: string) {
    MatchesSpan(t, 0, |t|)
  }

  /** Length of the scheme prefix `https://`, `http://` or `file://` at `i`, or 0. */
  function SchemeLen(s: string, i: nat): (m: nat)
    requires i <= |s|
    ensures m == 0 || (i + m <= |s| && IsScheme(s[i..i + m]))
  {
    if i + 8 <= |s| && s[i..i + 8] == "https://" then 8
    else if i + 7 <= |s| && (s[i..i + 7] == "http://" || s[i..i + 7] == "file://") then 7
    else 0
  }

  /** At most one scheme starts at a position, so the alternation never needs to back off. */
  lemma SchemeUnique(s: string, i: int, a: int)
    requires 0 <= i <= a <= |s| && IsScheme(s[i..a])
    ensures SchemeLen(s, i) == a - i
  {
    if s[i..a] != "https://" {
      assert s[i + 4] == s[i..a][4] == ':';
      assert i + 8 <= |s| ==> s[i..i + 8][4] != 's';
    }
  }

  /** Length of the longest run of `inClass` characters starting at `p`. */
  function Span(s: string, p: nat, inClass: char -> bool): (n: nat)
    requires p <= |s|
    ensures p + n <= |s|
    ensures AllIn(s, p, p + n, inClass)
    ensures p + n < |s| ==> !inClass(s[p + n])
    decreases |s| - p
  {
    if p < |s| && inClass(s[p]) then 1 + Span(s, p + 1, inClass) else 0
  }

  /** Every run of `inClass` characters from `p` lies within the longest one. */
  lemma SpanCovers(s: string, p: nat, q: nat, inClass: char -> bool)
    requires p <= q <= |s| && AllIn(s, p, q, inClass)
    ensures q <= p + Span(s, p, inClass)
  {
  }

  /** A class-B character stands at position `q`. */
  predicate BAt(s: string, q: nat) {
    q < |s| && InB(s[q])
  }

  /**
   * Backing off the class-A run: the largest `k <= limit` such that a
   * class-B character stands at `p + k`, or 0 when there is none.
   */
  function BackOff(s: string, p: nat, limit: nat): (k: nat)
    requires p + limit <= |s|
    ensures k <= limit
    ensures k > 0 ==> p + k < |s| && InB(s[p + k])
    ensures forall q | p + k < q <= p + limit :: !BAt(s, q)
    decreases limit
  {
    if limit == 0 then 0
    else if BAt(s, p + limit) then limit
    else BackOff(s, p, limit - 1)
  }

  /** End of the match the regex engine finds at `i`, or None. */
  function MatchAt(s: string, i: nat): (r: Option<nat>)
    requires i <= |s|
    ensures r.Some? ==> i < r.value <= |s|
  {
    var m := SchemeLen(s, i);
    if m == 0 then None
    else
      var p := i + m;
      var k := BackOff(s, p, Span(s, p, InA));
      if k == 0 then None
      else Some(p + k + Span(s, p + k, InB))
  }

  /** What the matcher finds does match the pattern. */
  lemma MatchAtSound(s: string, i: nat)
    requires i <= |s| && MatchAt(s, i).Some?
    ensures MatchesSpan(s, i, MatchAt(s, i).value)
  {
    var m := SchemeLen(s, i);
    var p := i + m;
    var k := BackOff(s, p, Span(s, p, InA));
    var e := MatchAt(s, i).value;
    assert Shape(s, i, p, p + k, e);
  }

  /**
   * The matcher misses no match and finds the longest one: whenever
   * `s[i..e]` matches the pattern, the matcher succeeds at `i` and ends at
   * `e` or later.
   */
  lemma MatchAtLongest(s: string, i: nat, e: int)
    requires i <= |s| && MatchesSpan(s, i, e)
    ensures MatchAt(s, i).Some? && e <= MatchAt(s, i).value
  {
    var a, b :| Shape(s, i, a, b, e);
    SchemeUnique(s, i, a);
    var k := BackOffReaches(s, a, b, e);
    assert MatchAt(s, i).value == a + k + Span(s, a + k, InB);
    if e > a + k {
      SpanWithin(s, b, e, a + k, InB);
      SpanCovers(s, a + k, e, InB);
    }
  }

  /** Backing off from the longest class-A run stops at or after the class-B part `s[b..e]` begins. */
  lemma BackOffReaches(s: string, a: nat, b: nat, e: nat) returns (k: nat)
    requires a < b < e <= |s| && AllIn(s, a, b, InA) && AllIn(s, b, e, InB)
    ensures a + Span(s, a, InA) <= |s|
    ensures k == BackOff(s, a, Span(s, a, InA)) && b <= a + k
  {
    SpanCovers(s, a, b, InA);
    k := BackOff(s, a, Span(s, a, InA));
    assert BAt(s, b);
  }

  /** A run of a class contains each of its suffixes. */
  lemma SpanWithin(s: string, lo: nat, hi: nat, mid: nat, inClass: char -> bool)
    requires lo <= mid <= hi <= |s| && AllIn(s, lo, hi, inClass)
    ensures AllIn(s, mid, hi, inClass)
  {
  }

  /** The matcher fails at `i` exactly when no text starting at `i` matches the pattern. */
  lemma MatchAtNone(s: string, i: nat)
    requires i <= |s|
    ensures MatchAt(s, i).None? <==> forall e :: !MatchesSpan(s, i, e)
  {
    if MatchAt(s, i).Some? {
      MatchAtSound(s, i);
    } else {
      forall e ensures !MatchesSpan(s, i, e) {
        if MatchesSpan(s, i, e) {
          MatchAtLongest(s, i, e);
        }
      }
    }
  }

  /**
   * Python's `re.findall` from position `i`, as the (start, end) positions
   * of the matches: at each position try the matcher; on a match record it
   * and continue at its end, otherwise continue one position on.
   */
  function Scan(s: string, i: nat): (hits: seq<(nat, nat)>)
    requires i <= |s|
    ensures forall t | 0 <= t < |hits| :: i <= hits[t].0 < hits[t].1 <= |s|
    ensures forall t | 0 < t < |hits| :: hits[t - 1].1 <= hits[t].0
    decreases |s| - i
  {
    if i == |s| then []
    else
      match MatchAt(s, i)
      case None => Scan(s, i + 1)
      case Some(e) => [(i, e)] + Scan(s, e)
  }

  /** Each hit of the scan is the longest match at its start. */
  lemma {:induction false} ScanHits(s: string, i: nat, t: nat)
    requires i <= |s| && t < |Scan(s, i)|
    ensures MatchAt(s, Scan(s, i)[t].0) == Some(Scan(s, i)[t].1)
    decreases |s| - i
  {
    if i < |s| {
      match MatchAt(s, i)
      case None => ScanHits(s, i + 1, t);
      case Some(e) =>
        if t > 0 {
          ScanHits(s, e, t - 1);
        }
    }
  }

  /**
   * Leftmost, non-overlapping: no match of the pattern starts at a position
   * that no hit covers.
   */
  lemma {:induction false} ScanLeftmost(s: string, i: nat, j: nat)
    requires i <= j < |s|
    requires forall t | 0 <= t < |Scan(s, i)| :: !(Scan(s, i)[t].0 <= j < Scan(s, i)[t].1)
    ensures MatchAt(s, j).None?
    decreases |s| - i
  {
    match MatchAt(s, i)
    case None =>
      assert Scan(s, i) == Scan(s, i + 1);
      if i < j {
        ScanLeftmost(s, i + 1, j);
      }
    case Some(e) =>
      assert Scan(s, i)[0] == (i, e);
      var rest := Scan(s, e);
      forall t | 0 <= t < |rest| ensures !(rest[t].0 <= j < rest[t].1) {
        assert rest[t] == Scan(s, i)[t + 1];
      }
      ScanLeftmost(s, e, j);
  }

  /** Python's `re.findall(pattern, s)`: the matched texts, left to right. */
  function FindAll(s: string): (urls: seq<string>)
    ensures forall u | u in urls :: IsUrl(u)
  {
    var hits := Scan(s, 0);
    var urls := seq(|hits|, t requires 0 <= t < |hits| => s[hits[t].0..hits[t].1]);
    assert forall u | u in urls :: IsUrl(u) by {
      forall t | 0 <= t < |hits| ensures IsUrl(urls[t]) {
        ScanHits(s, 0, t);
        MatchAtSound(s, hits[t].0);
        SliceMatches(s, hits[t].0, hits[t].1);
      }
    }
    urls
  }

  /** A match inside `s` is a match on its own. */
  lemma SliceMatches(s: string, i: int, e: int)
    requires MatchesSpan(s, i, e)
    ensures IsUrl(s[i..e])
  {
    var a, b :| Shape(s, i, a, b, e);
    var t := s[i..e];
    assert t[0..a - i] == s[i..a];
    assert Shape(t, 0, a - i, b - i, e - i);
  }

  /**
   * What every extracted URL looks like: one of the three schemes, then at
   * least two characters of the classes, the last of class B (so never `:`),
   * and no whitespace or line break anywhere.
   */
  lemma UrlFacts(t: string)
    requires IsUrl(t)
    ensures exists n :: 0 < n && n + 2 <= |t| && IsScheme(t[..n])
    ensures InB(t[|t| - 1]) && t[|t| - 1] != ':'
    ensures forall j | 0 <= j < |t| :: InA(t[j]) || InB(t[j])
    ensures '\n' !in t && ' ' !in t
  {
    var a, b :| Shape(t, 0, a, b, |t|);
    assert t[..a] == t[0..a];
    forall j | 0 <= j < |t| ensures InA(t[j]) || InB(t[j]) {
      if j < a {
        assert t[j] == t[0..a][j];
      }
    }
  }
}
