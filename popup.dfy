/**
 * The picker popup's size: wide enough for the longest candidate or the
 * header, tall enough for every candidate, and never larger than the tmux
 * client (80x24 when its size cannot be read).
 */
module Popup {
  import opened Wrappers

  const HEADER: string := "Press CTRL-Y to copy URL to clipboard"
  const FALLBACK_WIDTH: int := 80
  const FALLBACK_HEIGHT: int := 24

  /**
   * What the client-size query yields: the command failed or a word was not
   * an integer (CalledProcessError or ValueError), or the integers it printed.
   */
  datatype ClientReply = QueryFailed | Numbers(values: seq<int>)

  /** Python's `max(len(x) for x in xs)`: the greatest length among `xs`. */
  function MaxLen(xs: seq<string>): (m: nat)
    requires xs != []
    ensures forall x | x in xs :: |x| <= m
    ensures exists x | x in xs :: |x| == m
  {
    if |xs| == 1 then |xs[0]|
    else
      var rest := MaxLen(xs[1..]);
      if |xs[0]| >= rest then |xs[0]| else rest
  }

  /**
   * The client bounds as the source computes them: the fallback when the
   * query fails, the first two integers otherwise, and None (an IndexError
   * that ends the script) when fewer than two integers came back.
   */
  function ClientBoundsAsWritten(reply: ClientReply): (bounds: Option<(int, int)>)
    ensures bounds.None? <==> reply.Numbers? && |reply.values| < 2
  {
    match reply
    case QueryFailed => Some((FALLBACK_WIDTH, FALLBACK_HEIGHT))
    case Numbers(values) =>
      if |values| < 2 then None else Some((values[0], values[1]))
  }

  /** A client that prints no numbers makes the script fail instead of using the fallback. */
  lemma EmptyReplyFails()
    ensures ClientBoundsAsWritten(Numbers([])).None?
    ensures ClientBoundsAsWritten(QueryFailed) == Some((80, 24))
  {
  }

  /**
   * The client bounds with the fallback applied whenever the reply does not
   * give both a width and a height.
   */
  function ClientBounds(reply: ClientReply): (bounds: (int, int))
    ensures reply.Numbers? && |reply.values| >= 2 ==> bounds == (reply.values[0], reply.values[1])
    ensures !(reply.Numbers? && |reply.values| >= 2) ==> bounds == (FALLBACK_WIDTH, FALLBACK_HEIGHT)
    ensures ClientBoundsAsWritten(reply).Some? ==> bounds == ClientBoundsAsWritten(reply).value
  {
    if reply.Numbers? && |reply.values| >= 2 then (reply.values[0], reply.values[1])
    else (FALLBACK_WIDTH, FALLBACK_HEIGHT)
  }

  /** `width` and `height` before clamping: two, four and two columns and seven rows of chrome. */
  function NaturalSize(urls: seq<string>): (size: (int, int))
    ensures forall u | u in urls :: |u| + 8 <= size.0
    ensures |HEADER| + 8 <= size.0
    ensures size.1 == |urls| + 7
  {
    var all := urls + [HEADER];
    assert HEADER in all;
    assert forall u | u in urls :: u in all;
    (MaxLen(all) + 2 + 4 + 2, |urls| + 5 + 1 + 1)
  }

  /** The `--tmux` size: the natural size, cut down to the client's bounds. */
  function PopupSize(urls: seq<string>, bounds: (int, int)): (size: (int, int))
    ensures size.0 <= bounds.0 && size.0 <= NaturalSize(urls).0
    ensures size.0 == bounds.0 || size.0 == NaturalSize(urls).0
    ensures size.1 <= bounds.1 && size.1 <= NaturalSize(urls).1
    ensures size.1 == bounds.1 || size.1 == NaturalSize(urls).1
  {
    var natural := NaturalSize(urls);
    (if natural.0 <= bounds.0 then natural.0 else bounds.0,
     if natural.1 <= bounds.1 then natural.1 else bounds.1)
  }

  /**
   * The popup never exceeds the client; when the candidates fit it is exactly
   * wide enough for the longest of them and the header plus eight columns,
   * and exactly as tall as the candidates plus seven rows.
   */
  lemma PopupSizeSpec(urls: seq<string>, bounds: (int, int))
    ensures PopupSize(urls, bounds).0 <= bounds.0 && PopupSize(urls, bounds).1 <= bounds.1
    ensures PopupSize(urls, bounds).0 <= NaturalSize(urls).0 && PopupSize(urls, bounds).1 <= NaturalSize(urls).1
    ensures PopupSize(urls, bounds).0 == bounds.0 || PopupSize(urls, bounds).0 == NaturalSize(urls).0
    ensures PopupSize(urls, bounds).1 == bounds.1 || PopupSize(urls, bounds).1 == |urls| + 7
    ensures forall u | u in urls :: |u| + 8 <= NaturalSize(urls).0
    ensures |HEADER| + 8 <= NaturalSize(urls).0
    ensures NaturalSize(urls).0 == |HEADER| + 8 || exists u | u in urls :: NaturalSize(urls).0 == |u| + 8
  {
    var all := urls + [HEADER];
    assert HEADER in all;
    forall u | u in urls ensures u in all {
    }
    var m := MaxLen(all);
    var w :| w in all && |w| == m;
    if w != HEADER {
      assert w in urls;
    }
  }

  /** The example of a single short candidate under the header: 45 by 8, cut to the client. */
  lemma PopupSizeExample(bounds: (int, int))
    ensures PopupSize(["http://x.com"], bounds)
         == (if 45 <= bounds.0 then 45 else bounds.0, if 8 <= bounds.1 then 8 else bounds.1)
  {
    assert |HEADER| == 37;
    PopupSizeSpec(["http://x.com"], bounds);
    var all := ["http://x.com"] + [HEADER];
    assert MaxLen(all) == 37 by {
      assert MaxLen(all[1..]) == 37;
    }
  }
}
