/**
 * The script from the pane capture to the picker: gather the URLs of every
 * captured line, keep each once with the newest first, stop when there are
 * none, and size the popup that shows them one per line.
 */
module Pipeline {
  import opened Wrappers
  import opened Text
  import opened UrlPattern
  import opened Extract
  import opened Dedup
  import opened Popup
  import Dispatch

  const NO_URLS: string := "No URLs found"

  /** How far a run gets before the picker opens. */
  datatype Stage =
    | Failed(code: int)                                       // the capture failed: a message on stderr, exit 1
    | Halted(message: string)                                 // a tmux message, then exit 0
    | Crashed                                                 // an uncaught IndexError sizing the popup: a traceback, exit 1
    | Picker(candidates: seq<string>, size: (int, int))       // the picker's entries and its `--tmux` size

  /**
   * The picker's entries for the gathered `urls`: every one of them once,
   * newest first, each a URL of the pattern of at most MAX_URL_LENGTH
   * characters.
   */
  ghost predicate Offers(urls: seq<string>, candidates: seq<string>) {
    && (forall x :: x in candidates <==> x in urls)
    && Distinct(candidates)
    && NewestFirst(urls, candidates)
    && (forall u | u in candidates :: IsUrl(u) && |u| <= MAX_URL_LENGTH)
  }

  /**
   * From the pane capture (None when `tmux capture-pane` failed; otherwise
   * its lines) and the client-size reply to the picker's entries and size,
   * as the script computes them: a reply with fewer than two integers makes
   * the size computation raise.
   */
  method Prepare(parse: Parser, capture: Option<seq<string>>, reply: ClientReply) returns (stage: Stage)
    ensures capture.None? <==> stage == Failed(1)
    ensures capture.Some? ==> (Collected(parse, capture.value) == [] <==> stage == Halted(NO_URLS))
    ensures capture.Some? && Collected(parse, capture.value) != [] ==>
      if ClientBoundsAsWritten(reply).None? then stage == Crashed else stage.Picker?
    ensures stage.Picker? ==>
      && capture.Some?
      && Offers(Collected(parse, capture.value), stage.candidates)
      && ClientBoundsAsWritten(reply).Some?
      && stage.size == PopupSize(stage.candidates, ClientBoundsAsWritten(reply).value)
  {
    if capture.None? {
      return Failed(1);
    }
    var urls := CollectUrls(parse, capture.value);
    var unique := NewestUnique(urls);
    if unique == [] {
      assert urls == [] by {
        NoneLeft(urls, unique);
      }
      return Halted(NO_URLS);
    }
    assert unique[0] in urls;
    var bounds := ClientBoundsAsWritten(reply);
    if bounds.None? {
      return Crashed;
    }
    return Picker(unique, PopupSize(unique, bounds.value));
  }

  /** Extracted URLs are words: no whitespace, not empty. */
  lemma UrlsAreWords(urls: seq<string>)
    requires forall u | u in urls :: IsUrl(u)
    ensures forall j | 0 <= j < |urls| :: Dispatch.IsWord(urls[j])
  {
    forall j | 0 <= j < |urls| ensures Dispatch.IsWord(urls[j]) {
      var u := urls[j];
      UrlFacts(u);
      forall t | 0 <= t < |u| ensures !IsSpace(u[t]) {
        assert InA(u[t]) || InB(u[t]);
      }
    }
  }

  /**
   * The picker is fed the candidates joined by newlines; since no URL holds a
   * line break, splitting that text at its newlines gives back exactly the
   * candidates, one entry each.
   */
  lemma PickerEntries(candidates: seq<string>)
    requires candidates != []
    requires forall u | u in candidates :: IsUrl(u)
    ensures SplitOn(Join("\n", candidates), '\n') == candidates
  {
    forall u | u in candidates ensures '\n' !in u {
      UrlFacts(u);
    }
    SplitJoin(candidates, '\n');
  }

  /**
   * Copying URLs the picker offered: when they fit in the clipboard limit,
   * the clipboard holds exactly those URLs, one per line.
   */
  lemma CopiedUrls(urls: seq<string>)
    requires urls != []
    requires forall u | u in urls :: IsUrl(u)
    requires |Join("\n", urls)| <= Dispatch.CLIPBOARD_LIMIT
    ensures SplitOn(Dispatch.ClipboardText(urls), '\n') == urls
  {
    UrlsAreWords(urls);
    Dispatch.ClipboardHoldsSelection(urls);
  }
}
