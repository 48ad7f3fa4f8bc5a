# fzf-url in Dafny

A model of the logic of `fzf-url.py`, a tmux helper that finds the URLs shown
in the current pane and lets the user open them or copy them with fzf. Here
is what the model covers:

- **URL pattern** (`url_pattern.dfy`, module `UrlPattern`). The pattern
  `(?:https?|file)://[A]+[B]+` is written as a backtracking matcher.
  - Class A is `-a-zA-Z0-9@:%_+.~#?&/=`. Class B is class A without `:` and
    with `!` added.
  - `MatchAt` matches the scheme, takes the longest class-A run, backs off
    until a class-B character follows, then takes the longest class-B run.
  - A declarative description (`Shape`, `MatchesSpan`, `IsUrl`) says which
    texts the pattern matches. The matcher is proved sound and complete
    against it, and proved to return the longest match.
  - `Scan` and `FindAll` model `re.findall`: leftmost matches that do not
    overlap.
- **Extraction and line accumulation** (`extract.dfy`, module `Extract`).
  - `ExtractUrls` is the `extract_urls` loop. It drops a candidate that is
    longer than 8192 characters, whose parse raises, or that fails the parse
    check.
  - `CollectUrls` is the loop that strips each captured line, skips blank
    lines and appends what each remaining line yields.
  - Each loop is proved equal to a function (`Extracted`, `Collected`).
    Properties of those functions are proved as lemmas.
- **Newest-first deduplication** (`dedup.dfy`, module `Dedup`). `NewestUnique`
  models `list(dict.fromkeys(reversed(urls)))`.
- **Popup size** (`popup.dfy`, module `Popup`): the `--tmux` width and height
  clamped to the client size.
- **Selection dispatch** (`dispatch.dfy`, module `Dispatch`).
  - `Executable` is the `executable` lookup.
  - `ClipboardText` is the text `copy` writes.
  - `Open` contains the opener loop.
  - `Dispatch` decides between cancelling, copying and opening.
- **Pipeline** (`pipeline.dfy`, module `Pipeline`): the run from the pane
  capture up to the picker.
- **Helpers**: Python's whitespace, `strip`, `split()[0]`, `join` and
  `split` (`text.dfy`, module `Text`), and `Option` (`wrappers.dfy`).

Some inputs come from outside the script, so they are parameters.
- `urllib.parse.urlparse` is a function `Parser` that returns None when the
  parse raises. The script's grouping `(scheme in (...) and netloc) or path`
  is kept exactly.
- The shell's `command -v` test is a predicate `onPath`.
- The pane capture is `None` when it fails, and otherwise its lines.
- The client-size reply is `QueryFailed` or the integers it printed.
- How running the copier went is a boolean that says whether it raised,
  plus the lines it printed.

The final class admits `!` and excludes `:`, so a URL may end with `!` but
never with `:`.

The flow members (`Pipeline.Prepare`, `Dispatch.Copy`) follow the script as
written, including its two defects listed under "## Findings". The corrected
behaviour of each is defined and proved separately (`Popup.ClientBounds`,
`Dispatch.CopyNotice`).

## Model

| member | source | states |
|---|---|---|
| Text.Strip | fzf-url.py:107 | the result is the slice of the line left once only whitespace is removed from either end; it is empty exactly when the line is all whitespace, and otherwise neither starts nor ends with whitespace |
| Text.StripUnchanged | fzf-url.py:176 | a text that neither starts nor ends with whitespace is left as it is by strip |
| Text.StripIdempotent | fzf-url.py:107 | stripping twice is stripping once |
| Text.Join | fzf-url.py:159 | `sep.join`: empty for no parts, otherwise it starts with the first part, followed by the separator when more parts follow |
| Text.FirstWord | fzf-url.py:17 | `c.split()[0]`: a non-empty word without whitespace that starts the command after its leading whitespace |
| Text.SplitOn | fzf-url.py:159 | splitting at a character always gives at least one part, and no part contains that character |
| Text.SplitJoin | fzf-url.py:159 | joining parts with a character none of them contains, then splitting at it, gives the parts back |
| Text.JoinSplit | fzf-url.py:176 | splitting at a character, then joining with it, gives the text back |
| Text.JoinLength | fzf-url.py:176 | a joined text is as long as its parts plus one separator between each two |
| UrlPattern.InA | fzf-url.py:76 | the first class holds only printable ASCII characters other than `!`, so no whitespace |
| UrlPattern.InB | fzf-url.py:76 | the final class holds only printable ASCII characters, never `:` and never whitespace |
| UrlPattern.ClassB | fzf-url.py:76 | the final class is exactly the first class without `:`, plus `!` |
| UrlPattern.SchemeLen | fzf-url.py:76 | the scheme alternation matches `http://`, `https://` or `file://` at a position, or nothing |
| UrlPattern.SchemeUnique | fzf-url.py:76 | at most one scheme starts at a position, so the alternation never has to back off |
| UrlPattern.Span | fzf-url.py:76 | a greedy character-class run: every character in it is in the class and the next one is not |
| UrlPattern.SpanCovers | fzf-url.py:76 | any run of the class from a position lies within the greedy run |
| UrlPattern.BackOff | fzf-url.py:76 | backing off the class-A run stops at the largest length followed by a class-B character, and no longer length is followed by one |
| UrlPattern.BackOffReaches | fzf-url.py:76 | backing off never goes past the start of any valid class-B tail |
| UrlPattern.MatchAt | fzf-url.py:75-78 | a match found at a position ends after it and within the line |
| UrlPattern.MatchAtSound | fzf-url.py:75-78 | what the matcher returns matches the pattern |
| UrlPattern.MatchAtLongest | fzf-url.py:75-78 | whenever some text from a position matches the pattern, the matcher succeeds there and returns a match at least as long |
| UrlPattern.MatchAtNone | fzf-url.py:75-78 | the matcher fails at a position exactly when no text starting there matches the pattern |
| UrlPattern.Scan | fzf-url.py:75-78 | `findall` hits lie within the line, in order, without overlapping |
| UrlPattern.ScanHits | fzf-url.py:75-78 | each hit is the engine's match at the hit's start |
| UrlPattern.ScanLeftmost | fzf-url.py:75-78 | no match starts at a position outside every hit, so no URL is skipped |
| UrlPattern.FindAll | fzf-url.py:75-78 | every text `findall` returns matches the pattern as a whole |
| UrlPattern.SliceMatches | fzf-url.py:75-78 | a match inside a line, cut out, is a match on its own |
| UrlPattern.UrlFacts | fzf-url.py:75-77 | every match starts with one of the three schemes followed by at least two class characters, ends with a class-B character (never `:`), and has no space or line break |
| Extract.Parses | fzf-url.py:88 | the check grouped as `(scheme in (...) and netloc) or path`: any non-empty path passes whatever the scheme; without a path, the scheme must be one of the three and the netloc non-empty |
| Extract.Kept | fzf-url.py:81-91 | a candidate is kept exactly when it is at most 8192 characters long, parses, and passes the parse check; nothing else is kept and the list does not grow |
| Extract.KeptLast | fzf-url.py:81-91 | filtering one more candidate appends it exactly when it survives the checks |
| Extract.Extracted | fzf-url.py:74-92 | what `extract_urls` returns are matches of the pattern in the line, each at most 8192 characters long and passing the parse check |
| Extract.ExtractUrls | fzf-url.py:74-92 | the loop returns the kept matches of the line in order; each is a URL of the pattern at most 8192 characters long |
| Extract.CollectUrls | fzf-url.py:105-110 | the loop returns the concatenation, top to bottom, of what each stripped non-blank line yields; each is a URL of at most 8192 characters |
| Extract.LineUrls | fzf-url.py:107-110 | a line that is blank once stripped contributes nothing; any other line contributes what `extract_urls` returns for its stripped text |
| Extract.CollectedAppend | fzf-url.py:105-110 | the URLs of two blocks of lines are those of the first block followed by those of the second |
| Extract.CollectedSkipsBlank | fzf-url.py:107-109 | a blank line contributes nothing wherever it stands |
| Extract.CollectedFrom | fzf-url.py:105-110 | every gathered URL was extracted from one of the captured lines |
| Dedup.LastIndex | fzf-url.py:113 | the position of the most recent occurrence of a value |
| Dedup.NewestUnique | fzf-url.py:113 | the result holds exactly the input's values, each once, ordered by most recent occurrence, newest first |
| Dedup.NewestUniqueDetermined | fzf-url.py:113 | those three properties determine the list: two lists with the same values, each distinct and newest first, are equal |
| Popup.MaxLen | fzf-url.py:129 | `max(len(x) ...)`: no length exceeds it and some element has it |
| Popup.ClientBoundsAsWritten | fzf-url.py:119-131 | the bounds as written: the 80x24 fallback when the query fails, the first two integers otherwise, and a failure exactly when fewer than two integers came back |
| Popup.EmptyReplyFails | fzf-url.py:124-131 | a client reply with no integers ends the script with an error instead of falling back to 80x24 |
| Popup.ClientBounds | fzf-url.py:126-127 | the bounds with the fallback applied whenever the reply lacks a width or a height; agrees with the bounds as written wherever those exist |
| Popup.NaturalSize | fzf-url.py:129-130 | the unclamped width leaves eight columns beyond every candidate and the header; the unclamped height is the count plus seven |
| Popup.PopupSize | fzf-url.py:131 | each dimension is the smaller of its natural value and its bound: at most both, and equal to one of them |
| Popup.PopupSizeSpec | fzf-url.py:129-131 | the size never exceeds the bounds nor the natural size; each dimension is its bound or its natural value; the width leaves eight columns beyond every candidate and the header, and is exactly that for the longest; the height is the count plus seven |
| Popup.PopupSizeExample | fzf-url.py:129-131 | one short candidate under the 37-character header gives 45 by 8, clamped to the client |
| Dispatch.Executable | fzf-url.py:15-26 | returns None exactly when no candidate's first word is on the path, and otherwise the first candidate whose first word is |
| Dispatch.CandidatesNamed | fzf-url.py:164-170 | every copier and opener candidate has a first word to look up |
| Dispatch.Tail | fzf-url.py:176 | `selected[1:]`: every line after the first, in order |
| Dispatch.ClipboardText | fzf-url.py:176-178 | the clipboard text is at most 81920 characters |
| Dispatch.ClipboardTextPrefix | fzf-url.py:176-178 | the clipboard text is a prefix of the stripped joined selection: all of it when it fits, and exactly 81920 characters when cut |
| Dispatch.ClipboardHoldsSelection | fzf-url.py:176-178 | when the selected entries are words and fit in the limit, the clipboard holds exactly them, one per line |
| Dispatch.ClipboardExample | fzf-url.py:174-179 | copying two URLs puts them on the clipboard on two lines |
| Dispatch.WithCommandResult | fzf-url.py:38-70 | `with_command` always returns a list, never None |
| Dispatch.CopyNoticeAsWritten | fzf-url.py:181-185 | as written, the error message is shown exactly when `with_command` returned None |
| Dispatch.CopyErrorUnreachable | fzf-url.py:181-185 | as written, the copy is always reported as done, even when running the copier raised |
| Dispatch.CopyNotice | fzf-url.py:181-185 | the corrected message is the error exactly when running the copier raised, and the success message otherwise |
| Dispatch.OpenArgv | fzf-url.py:194-208 | an argument vector exists exactly for the openers `open` and `xdg-open`; it names the opener just before the URL, which comes last |
| Dispatch.OpenAll | fzf-url.py:192-210 | with a known opener, one call per URL, in order, with the argument vector for that opener; a failed call does not stop the loop |
| Dispatch.Copy | fzf-url.py:163-185 | the copy branch halts when no copier is on the path, and otherwise pipes the clipboard text of the selection into the first copier found; the message is the one the script's test on `with_command`'s result picks |
| Dispatch.Open | fzf-url.py:187-210 | the open branch halts when no opener is on the path, and otherwise makes one call per selected URL, in order: the argument vector of the first opener found for that URL |
| Dispatch.Dispatch | fzf-url.py:160-163 | fewer than two picker lines does nothing; otherwise `ctrl-y` as the first line selects the copy branch and anything else selects the open branch |
| Pipeline.Prepare | fzf-url.py:95-131 | a failed capture exits with code 1; the run halts with "No URLs found" exactly when no line yields a URL; otherwise a client reply with fewer than two integers crashes the run, and any other reply opens the picker with every gathered URL once, newest first, and the clamped popup size |
| Pipeline.UrlsAreWords | fzf-url.py:75-77 | extracted URLs are non-empty and hold no whitespace |
| Pipeline.PickerEntries | fzf-url.py:159 | the picker's input, the candidates joined by newlines, splits back into exactly the candidates |
| Pipeline.CopiedUrls | fzf-url.py:174-179 | copying URLs the picker offered, when they fit the limit, leaves exactly those URLs on the clipboard, one per line |

## Left out

- Subprocesses and I/O are not modelled: `tmux capture-pane`, `tmux display-message`, fzf, the clipboard tools and the openers. Their results are inputs or parameters, and the opener calls are values returned rather than processes started.
- The timeout, `nohup` and `start_new_session` handling of the openers are not modelled. These only affect how processes run.
- `with_command`'s `sys.stdout` swap, its pipe handling and its swallowing of `BrokenPipeError` are left out. Its result is modelled by `Dispatch.WithCommandResult`.
- `shlex.quote` and the fzf option string are left out: the option list is constant.
- `urllib.parse.urlparse` is a library outside this model, so it is a parameter.
- The shell's `command -v` is a parameter for the same reason.
- `str.splitlines` of the captured text is left out. The capture is given as its lines.
- `int()` parsing of the client-size reply is left out. A word that is not an integer is part of `QueryFailed`, as it is in the script.
- `sys.exit` and `halt` are not control flow here. They become the result values `Stage` and `Outcome`.
- The stderr message printed when the capture fails is not modelled. The stage carries only the exit code.
- Dispatch.Executable: requires every candidate to have a first word. `c.split()[0]` raises on a blank candidate, and the script's fixed candidate lists never contain one (`Dispatch.CandidatesNamed`).
- Text.IsSpace follows the characters Python's `str.isspace` accepts. No other Unicode handling of `str.strip` is modelled.

## Findings

| source | as written | input that shows it | evidently intended | confidence | as-written member | corrected member |
|---|---|---|---|---|---|---|
| fzf-url.py:181-185 | `with_command` returns a list even when running the copier raised, so `result is not None` always holds | a copier that raises when started: the script still shows "Copied to clipboard" | show "Error copying to clipboard" when the copy failed | high, not executed | Dispatch.CopyErrorUnreachable | Dispatch.CopyNotice |
| fzf-url.py:124-131 | the reply is parsed into a list, and the list is indexed at 0 and 1 without a length check | `tmux display-message` printing nothing: `max_size[0]` raises IndexError | fall back to 80x24 unless both a width and a height came back | medium, not executed | Popup.EmptyReplyFails | Popup.ClientBounds |
