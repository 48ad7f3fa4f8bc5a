/**
 * What happens after the picker returns: nothing when it was cancelled, a
 * copy of the chosen URLs to the clipboard when the copy key fired, and
 * otherwise one opener call per chosen URL. The external commands are found
 * with `executable`, an ordered search whose `command -v` test is given as
 * the parameter `onPath`.
 */
module Dispatch {
  import opened Wrappers
  import opened Text

  /** The key fzf reports first when the user asked to copy. */
  const COPY_KEY: string := "ctrl-y"

  /** Clipboard writers, in order of preference. */
  const COPIERS: seq<string> := [
    "reattach-to-user-namespace pbcopy",
    "pbcopy",
    "wl-copy",
    "xsel --clipboard --input",
    "xclip -selection clipboard"
  ]

  /** URL openers, in order of preference. */
  const OPENERS: seq<string> := ["open", "xdg-open"]

  /** The clipboard text is cut to ten maximum-length URLs. */
  const CLIPBOARD_LIMIT: nat := 8192 * 10

  const NO_COPIER: string := "No command to control clipboard with"
  const NO_OPENER: string := "No command to open URL with"
  const COPIED: string := "Copied to clipboard"
  const COPY_FAILED: string := "Error copying to clipboard"

  /** Every candidate command has a first word for `command -v` to look up. */
  ghost predicate Named(commands: seq<string>) {
    forall j | 0 <= j < |commands| :: !AllSpace(commands[j])
  }

  /** `commands[k]` is the first candidate whose first word is on the path. */
  ghost predicate FirstOnPath(commands: seq<string>, onPath: string -> bool, k: int) {
    && Named(commands)
    && 0 <= k < |commands|
    && onPath(FirstWord(commands[k]))
    && forall j | 0 <= j < k :: !onPath(FirstWord(commands[j]))
  }

  /** No candidate's first word is on the path. */
  ghost predicate NoneOnPath(commands: seq<string>, onPath: string -> bool) {
    && Named(commands)
    && forall j | 0 <= j < |commands| :: !onPath(FirstWord(commands[j]))
  }

  /**
   * `executable(*commands)`: try the candidates in order and return the
   * first whose first word `command -v` finds, or None.
   */
  method Executable(commands: seq<string>, onPath: string -> bool) returns (found: Option<string>)
    requires Named(commands)
    ensures found.None? <==> NoneOnPath(commands, onPath)
    ensures found.Some? ==> exists k :: FirstOnPath(commands, onPath, k) && found.value == commands[k]
  {
    for i := 0 to |commands|
      invariant forall j | 0 <= j < i :: !onPath(FirstWord(commands[j]))
    {
      var cmd := FirstWord(commands[i]);
      if onPath(cmd) {
        assert FirstOnPath(commands, onPath, i);
        return Some(commands[i]);
      }
    }
    return None;
  }

  /** The candidate lists of the script all name a command. */
  lemma CandidatesNamed()
    ensures Named(COPIERS) && Named(OPENERS)
  {
    forall j | 0 <= j < |COPIERS| ensures !AllSpace(COPIERS[j]) {
      assert !IsSpace(COPIERS[j][0]);
    }
    forall j | 0 <= j < |OPENERS| ensures !AllSpace(OPENERS[j]) {
      assert !IsSpace(OPENERS[j][0]);
    }
  }

  /** Python's `selected[1:]`: everything after the first line, in order. */
  function Tail(selected: seq<string>): (rest: seq<string>)
    ensures selected == [] ==> rest == []
    ensures selected != [] ==> |rest| == |selected| - 1 && forall j | 0 <= j < |rest| :: rest[j] == selected[j + 1]
  {
    if selected == [] then [] else selected[1..]
  }

  /** The text `copy` writes: the URLs one per line, stripped, cut to CLIPBOARD_LIMIT characters. */
  function ClipboardText(urls: seq<string>): (text: string)
    ensures |text| <= CLIPBOARD_LIMIT
  {
    var full := Strip(Join("\n", urls));
    if |full| > CLIPBOARD_LIMIT then full[..CLIPBOARD_LIMIT] else full
  }

  /**
   * The clipboard text is the start of the stripped, newline-joined URLs:
   * all of it when it fits in CLIPBOARD_LIMIT characters.
   */
  lemma ClipboardTextPrefix(urls: seq<string>)
    ensures ClipboardText(urls) <= Strip(Join("\n", urls))
    ensures |Strip(Join("\n", urls))| <= CLIPBOARD_LIMIT ==> ClipboardText(urls) == Strip(Join("\n", urls))
    ensures |Strip(Join("\n", urls))| > CLIPBOARD_LIMIT ==> |ClipboardText(urls)| == CLIPBOARD_LIMIT
  {
  }

  /** A word: not empty, no whitespace. */
  predicate IsWord(u: string) {
    u != [] && forall j | 0 <= j < |u| :: !IsSpace(u[j])
  }

  /**
   * When the selected entries are words (as URLs are) and short enough,
   * the clipboard holds exactly them, one per line.
   */
  lemma {:induction false} ClipboardHoldsSelection(urls: seq<string>)
    requires urls != [] && forall j | 0 <= j < |urls| :: IsWord(urls[j])
    requires |Join("\n", urls)| <= CLIPBOARD_LIMIT
    ensures SplitOn(ClipboardText(urls), '\n') == urls
  {
    var joined := Join("\n", urls);
    JoinEnds(urls);
    StripUnchanged(joined);
    forall u | u in urls ensures '\n' !in u {
      assert IsSpace('\n');
    }
    SplitJoin(urls, '\n');
  }

  /** Joined words neither start nor end with whitespace. */
  lemma {:induction false} JoinEnds(urls: seq<string>)
    requires urls != [] && forall j | 0 <= j < |urls| :: IsWord(urls[j])
    ensures var t := Join("\n", urls); t != [] && !IsSpace(t[0]) && !IsSpace(t[|t| - 1])
  {
    assert IsWord(urls[0]);
    if |urls| > 1 {
      JoinEnds(urls[1..]);
      var rest := Join("\n", urls[1..]);
      assert Join("\n", urls) == urls[0] + "\n" + rest;
    }
  }

  /** The example of copying two URLs: they land on the clipboard on two lines. */
  lemma ClipboardExample()
    ensures ClipboardText(Tail(["ctrl-y", "http://a.com", "http://b.com"])) == "http://a.com\nhttp://b.com"
  {
    var urls := ["http://a.com", "http://b.com"];
    assert Tail(["ctrl-y", "http://a.com", "http://b.com"]) == urls;
    assert Join("\n", urls) == "http://a.com\nhttp://b.com" by {
      assert urls[1..] == ["http://b.com"];
    }
    StripUnchanged("http://a.com\nhttp://b.com");
  }

  /**
   * `with_command` as written: the command's output lines when it ran, an
   * empty list when anything raised. It never yields None.
   */
  function WithCommandResult(raised: bool, output: seq<string>): (result: Option<seq<string>>)
    ensures result.Some?
  {
    if raised then Some([]) else Some(output)
  }

  /** The message after copying as written: `if result is not None` on the result of `with_command`. */
  function CopyNoticeAsWritten(raised: bool, output: seq<string>): (message: string)
    ensures message == COPY_FAILED <==> WithCommandResult(raised, output).None?
    ensures message == COPIED <==> WithCommandResult(raised, output).Some?
  {
    if WithCommandResult(raised, output).Some? then COPIED else COPY_FAILED
  }

  /** As written, a copy that raised is still reported as copied: the error message is unreachable. */
  lemma CopyErrorUnreachable(output: seq<string>)
    ensures CopyNoticeAsWritten(true, output) == COPIED
    ensures forall raised :: CopyNoticeAsWritten(raised, output) != COPY_FAILED
  {
  }

  /** The message after copying as intended: an error exactly when running the copier raised. */
  function CopyNotice(raised: bool): (message: string)
    ensures message == COPY_FAILED <==> raised
    ensures message == COPIED <==> !raised
  {
    if raised then COPY_FAILED else COPIED
  }

  /**
   * The argument vector used to open `url`: the opener itself for `open`,
   * under `nohup` for `xdg-open`, with the URL as the last argument; None
   * for any other opener, which the loop does not run.
   */
  function OpenArgv(opener: string, url: string): (argv: Option<seq<string>>)
    ensures argv.Some? <==> opener in OPENERS
    ensures argv.Some? ==> |argv.value| >= 2 && argv.value[|argv.value| - 1] == url
    ensures argv.Some? ==> argv.value[|argv.value| - 2] == opener
  {
    if opener == "open" then Some(["open", url])
    else if opener == "xdg-open" then Some(["nohup", "xdg-open", url])
    else None
  }

  /**
   * The opening loop: one call per URL, in order. A call that fails is
   * ignored and the loop goes on, so the calls made do not depend on how
   * earlier ones ended.
   */
  method OpenAll(opener: string, urls: seq<string>) returns (calls: seq<seq<string>>)
    ensures OpenArgv(opener, "").Some? ==> |calls| == |urls|
    ensures OpenArgv(opener, "").Some? ==> forall j | 0 <= j < |urls| :: Some(calls[j]) == OpenArgv(opener, urls[j])
    ensures OpenArgv(opener, "").None? ==> calls == []
  {
    calls := [];
    for i := 0 to |urls|
      invariant OpenArgv(opener, "").Some? ==> |calls| == i
      invariant OpenArgv(opener, "").Some? ==> forall j | 0 <= j < i :: Some(calls[j]) == OpenArgv(opener, urls[j])
      invariant OpenArgv(opener, "").None? ==> calls == []
    {
      var url := urls[i];
      if opener == "open" {
        calls := calls + [["open", url]];
      } else if opener == "xdg-open" {
        calls := calls + [["nohup", "xdg-open", url]];
      }
    }
  }

  /** How a run ends once the picker has answered. */
  datatype Outcome =
    | Cancelled                                             // fewer than two lines: exit 0, nothing done
    | Halted(message: string)                               // a tmux message, then exit 0
    | Copied(copier: string, text: string, message: string) // text piped into copier, then message
    | Opened(opener: string, calls: seq<seq<string>>)       // one opener call per URL

  /**
   * The copy branch: `outcome` reports the missing copier, or the first
   * copier on the path, the text piped into it and the message shown.
   */
  ghost predicate CopyOutcome(selected: seq<string>, onPath: string -> bool, copyRaised: bool, copyOutput: seq<string>, outcome: Outcome)
    requires |selected| >= 2
  {
    if NoneOnPath(COPIERS, onPath) then outcome == Halted(NO_COPIER)
    else && outcome.Copied?
         && (exists k :: FirstOnPath(COPIERS, onPath, k) && outcome.copier == COPIERS[k])
         && outcome.text == ClipboardText(selected[1..])
         && outcome.message == CopyNoticeAsWritten(copyRaised, copyOutput)
  }

  /**
   * The open branch: `outcome` reports the missing opener, or the first
   * opener on the path and one call per chosen URL, each ending with it.
   */
  ghost predicate OpenOutcome(selected: seq<string>, onPath: string -> bool, outcome: Outcome)
    requires |selected| >= 2
  {
    if NoneOnPath(OPENERS, onPath) then outcome == Halted(NO_OPENER)
    else && outcome.Opened?
         && (exists k :: FirstOnPath(OPENERS, onPath, k) && outcome.opener == OPENERS[k])
         && |outcome.calls| == |selected| - 1
         && forall j | 0 <= j < |outcome.calls| :: Some(outcome.calls[j]) == OpenArgv(outcome.opener, selected[j + 1])
  }

  /**
   * Copying the chosen URLs: find a copier, then pipe the clipboard text
   * into it. `copyRaised` says whether running the copier raised and
   * `copyOutput` is what it printed; the message follows the script's test
   * on what `with_command` returned.
   */
  method Copy(selected: seq<string>, onPath: string -> bool, copyRaised: bool, copyOutput: seq<string>) returns (outcome: Outcome)
    requires |selected| >= 2
    ensures CopyOutcome(selected, onPath, copyRaised, copyOutput, outcome)
  {
    CandidatesNamed();
    var copier := Executable(COPIERS, onPath);
    if copier.None? {
      return Halted(NO_COPIER);
    }
    var text := ClipboardText(Tail(selected));
    var result := WithCommandResult(copyRaised, copyOutput);
    var message := if result.Some? then COPIED else COPY_FAILED;
    return Copied(copier.value, text, message);
  }

  /** Opening the chosen URLs: find an opener, then call it once per URL. */
  method Open(selected: seq<string>, onPath: string -> bool) returns (outcome: Outcome)
    requires |selected| >= 2
    ensures OpenOutcome(selected, onPath, outcome)
  {
    CandidatesNamed();
    var opener := Executable(OPENERS, onPath);
    if opener.None? {
      return Halted(NO_OPENER);
    }
    ghost var k :| FirstOnPath(OPENERS, onPath, k) && opener.value == OPENERS[k];
    assert opener.value in OPENERS;
    var urls := Tail(selected);
    var calls := OpenAll(opener.value, urls);
    return Opened(opener.value, calls);
  }

  /**
   * The selection dispatch: `selected` is the picker's output, the fired key
   * first and the chosen URLs after it; `copyRaised` and `copyOutput` say
   * how running the copier went.
   */
  method Dispatch(selected: seq<string>, onPath: string -> bool, copyRaised: bool, copyOutput: seq<string>) returns (outcome: Outcome)
    ensures |selected| < 2 <==> outcome == Cancelled
    ensures |selected| >= 2 && selected[0] == COPY_KEY ==> CopyOutcome(selected, onPath, copyRaised, copyOutput, outcome)
    ensures |selected| >= 2 && selected[0] != COPY_KEY ==> OpenOutcome(selected, onPath, outcome)
  {
    if |selected| < 2 {
      return Cancelled;
    }
    if selected[0] == COPY_KEY {
      outcome := Copy(selected, onPath, copyRaised, copyOutput);
    } else {
      outcome := Open(selected, onPath);
    }
  }
}
