/**
 * `list(dict.fromkeys(reversed(urls)))`: the URLs newest first, each once.
 * The dict is modelled by its key set and its insertion order.
 */
module Dedup {

  /** No value occurs twice. */
  predicate Distinct(xs: seq<string>) {
    forall a, b | 0 <= a < b < |xs| :: xs[a] != xs[b]
  }

  /** The position of the last occurrence of `x` in `xs`. */
  function LastIndex(xs: seq<string>, x: string): (k: nat)
    requires x in xs
    ensures k < |xs| && xs[k] == x
    ensures forall j | k < j < |xs| :: xs[j] != x
  {
    if xs[|xs| - 1] == x then |xs| - 1 else LastIndex(xs[..|xs| - 1], x)
  }

  /** `xs` lists its values by decreasing position of their last occurrence in `urls`. */
  ghost predicate NewestFirst(urls: seq<string>, xs: seq<string>)
    requires forall x | x in xs :: x in urls
  {
    forall a, b | 0 <= a < b < |xs| :: LastIndex(urls, xs[a]) > LastIndex(urls, xs[b])
  }

  /**
   * Walks the URLs from the last to the first and keeps each the first time
   * it is met: the result holds every URL once, and lists them by their most
   * recent occurrence, newest first.
   */
  method NewestUnique(urls: seq<string>) returns (unique: seq<string>)
    ensures forall x :: x in unique <==> x in urls
    ensures Distinct(unique)
    ensures NewestFirst(urls, unique)
  {
    var keys: set<string> := {};
    unique := [];
    var i := |urls|;
    while i > 0
      invariant 0 <= i <= |urls|
      invariant forall x :: x in keys <==> x in urls[i..]
      invariant forall x :: x in unique <==> x in keys
      invariant forall x | x in unique :: x in urls
      invariant Distinct(unique)
      invariant forall a | 0 <= a < |unique| :: LastIndex(urls, unique[a]) >= i
      invariant NewestFirst(urls, unique)
    {
      i := i - 1;
      var url := urls[i];
      assert urls[i..] == [url] + urls[i + 1..];
      if url !in keys {
        assert LastIndex(urls, url) == i;
        unique := unique + [url];
        keys := keys + {url};
      }
    }
  }

  /** A list whose values all lie in the empty list is empty. */
  lemma NoneLeft(xs: seq<string>, ys: seq<string>)
    requires ys == [] || xs == []
    requires forall x :: x in xs <==> x in ys
    ensures xs == []
  {
    if xs != [] {
      SharesElement(xs, ys);
      assert false;
    }
  }

  /** A non-empty list and a list with the same values have its first value in common. */
  lemma SharesElement(xs: seq<string>, ys: seq<string>)
    requires xs != []
    requires forall x :: x in xs <==> x in ys
    ensures xs[0] in ys
  {
  }

  /** Two non-empty lists with the same values of `urls`, newest first, start with the same value. */
  lemma SameHead(urls: seq<string>, xs: seq<string>, ys: seq<string>)
    requires xs != [] && ys != []
    requires forall x | x in xs :: x in urls
    requires forall y | y in ys :: y in urls
    requires forall x :: x in xs <==> x in ys
    requires NewestFirst(urls, xs) && NewestFirst(urls, ys)
    ensures xs[0] == ys[0]
  {
    assert xs[0] in ys && ys[0] in xs;
    var a :| 0 <= a < |ys| && ys[a] == xs[0];
    var b :| 0 <= b < |xs| && xs[b] == ys[0];
    if a > 0 && b > 0 {
      assert false;
    }
  }

  /** Dropping a shared first value from two distinct lists with the same values leaves the same values. */
  lemma SameTailValues(xs: seq<string>, ys: seq<string>)
    requires xs != [] && ys != [] && xs[0] == ys[0]
    requires forall x :: x in xs <==> x in ys
    requires Distinct(xs) && Distinct(ys)
    ensures forall x :: x in xs[1..] <==> x in ys[1..]
  {
    forall x ensures x in xs[1..] <==> x in ys[1..] {
      if x in xs[1..] {
        var a :| 1 <= a < |xs| && xs[a] == x;
        assert x in ys;
      }
      if x in ys[1..] {
        var a :| 1 <= a < |ys| && ys[a] == x;
        assert x in xs;
      }
    }
  }

  /**
   * The three properties pin the result down: two lists that hold the same
   * values of `urls`, each once, newest first, are the same list.
   */
  lemma {:induction false} NewestUniqueDetermined(urls: seq<string>, xs: seq<string>, ys: seq<string>)
    requires forall x | x in xs :: x in urls
    requires forall y | y in ys :: y in urls
    requires forall x :: x in xs <==> x in ys
    requires Distinct(xs) && Distinct(ys)
    requires NewestFirst(urls, xs) && NewestFirst(urls, ys)
    ensures xs == ys
    decreases |xs|
  {
    if xs != [] && ys != [] {
      SameHead(urls, xs, ys);
      SameTailValues(xs, ys);
      NewestUniqueDetermined(urls, xs[1..], ys[1..]);
      assert xs == [xs[0]] + xs[1..];
      assert ys == [ys[0]] + ys[1..];
    } else {
      assert xs == [] && ys == [] by {
        NoneLeft(xs, ys);
        NoneLeft(ys, xs);
      }
    }
  }
}
