# Web scraper core, modelled in Dafny

The program is a small tkinter window, `WebScraperApp` in `main.py`. The user
types a URL and a list of CSS selectors and picks an output file. A worker
thread then fetches the URL 100 times. For every response with status 200 it
writes one line per selector, holding that selector's matches, to the file
and to the log list box. Any other status is logged as `Error: <code>`. The
first exception ends the session with `An error occurred: <e>`, and the busy
flag is always cleared at the end.

The model has four modules:

- `Text` (`text.dfy`): the string operations the code relies on, with
  Python's semantics.
  - `str.strip()` is `Strip`. Whitespace is the full `str.isspace` set.
  - `str.splitlines()` is `SplitLines`. It breaks at every character Python
    treats as a line boundary, and `"\r\n"` counts as one break.
  - `sep.join(parts)` is `Join`.
  - `str(n)` for a status code is `NatToString`.
- `Selectors` (`selectors.dfy`): how `confirm_selection` turns the typed
  text into the selector list (`Normalise`, via `Clean`, the list
  comprehension). `NormaliseLines` gives the stored list for any lines typed
  one per line: the non-blank ones, stripped, in order. The outer `strip()`
  turns out to change nothing in the result (`CleanStrippedText`).
- `Scrape` (`scrape.dfy`): the worker loop as a specification function.
  - `Run` gives the file lines and log entries of a whole session from what
    each of the 100 fetches returned.
  - A fetch is `Reply(status, body)` or `Raised(message)`.
  - `Step` is one iteration.
  - The lemmas state what the session produces: line counts, line order, the
    log mirroring the file, and error and failure counts.
- `App` (`app.dfy`): class `WebScraperApp` holds the fields `__init__` sets
  up, plus the log and the files on disk. Its methods update them in place:
  - `ChooseElements` and `StartScraping` are the two button handlers with
    their guards.
  - `ConfirmSelection` is the selection window's button.
  - `ScrapeWebsite` is the worker. Its loops (`FetchAll`, `WriteSelected`)
    are proved against `Scrape.Run`.

Some inputs become parameters:

- The answer of the save dialog is the `chosenPath` parameter of
  `StartScraping`.
- The HTTP responses are the `fetches` sequence.
- `str(soup.select(selector))` is a `Renderer` function passed to the
  worker.

Three details of the code shape the model:

- `confirm_selection` never resets `is_choosing_elements`.
- `start_scraping` stores the dialog's answer in `save_path` before checking
  that it is empty, so an empty answer overwrites an earlier path.
- `confirm_selection` takes no lock and does not check `is_scraping`.

## Model

| member | source | states |
|---|---|---|
| Text.TrimStart | main.py:58-59 | the left-stripped string is no longer than the input and, unless empty, starts with a non-whitespace character |
| Text.TrimStartSuffix | main.py:58-59 | left-stripping keeps a suffix of the input and drops only whitespace |
| Text.TrimEnd | main.py:58-59 | the right-stripped string is no longer than the input and, unless empty, ends with a non-whitespace character |
| Text.TrimEndPrefix | main.py:58-59 | right-stripping keeps a prefix of the input and drops only whitespace |
| Text.Strip | main.py:58-59 | `strip()` gives a trimmed string no longer than its input, empty exactly when the input is all whitespace (the test `if elem.strip()` makes) |
| Text.StripInfix | main.py:58-59 | the stripped string is the infix of the input that lies between a whitespace prefix and a whitespace suffix |
| Text.StripNoLineBreak | main.py:58-59 | stripping a line that has no line break cannot introduce one |
| Text.StripTrimmed | main.py:58-59 | `strip()` leaves a string that is already trimmed unchanged |
| Text.TrimStartPadded | main.py:58-59 | whitespace added in front does not change what lstrip leaves |
| Text.TrimEndPadded | main.py:58-59 | whitespace added at the end does not change what rstrip leaves |
| Text.TrimStartAppend | main.py:58-59 | lstrip of a string that is not all whitespace keeps everything appended after it |
| Text.StripPadStart | main.py:58-59 | `strip()` of whitespace followed by a text is `strip()` of the text |
| Text.StripPadEnd | main.py:58-59 | `strip()` of a text followed by whitespace is `strip()` of the text |
| Text.SplitLines | main.py:58 | `splitlines()` gives lines that hold no break, and gives no lines exactly for the empty string |
| Text.LinesFrom | main.py:58 | splitting with a partial current line gives lines without breaks, and gives none only when both the text and the current line are empty |
| Text.LinesFromAppend | main.py:58 | text without breaks only extends the current line |
| Text.SplitJoin | main.py:58 | `splitlines()` inverts `"\n".join(lines)` when no line holds a break and the last one is not empty |
| Text.SplitJoinNewline | main.py:58 | lines joined by "\n" and followed by one more "\n" split back into the same lines, empty ones included |
| Text.Join | main.py:61 | `sep.join(parts)` is empty for no parts and the part itself for one; it starts with the first part's first character and ends with the last part's last character |
| Text.JoinSnoc | main.py:61 | joining one more part appends the separator and that part |
| Text.NatToString | main.py:108 | `str(status)` is a non-empty string of decimal digits without a leading zero that denotes the status |
| Selectors.Clean | main.py:59 | the comprehension keeps at most one entry per line, and each entry is non-empty and trimmed |
| Selectors.CleanMembers | main.py:59 | a string is in the result exactly when it is the non-empty stripped form of some input line |
| Selectors.CleanAppend | main.py:59 | the comprehension works line by line: the cleaned lines of `a + b` are those of `a` followed by those of `b`, so order and duplicates are kept |
| Selectors.CleanNoLineBreak | main.py:58-59 | entries cleaned from lines without breaks have no breaks |
| Selectors.CleanSelectors | main.py:59 | lines that are already selectors come through unchanged |
| Selectors.CleanOne | main.py:59 | one line contributes its stripped form, or nothing when it is blank |
| Selectors.CleanPaddedLine | main.py:59 | whitespace around a line does not change what it contributes |
| Selectors.CleanPaddedCurrent | main.py:58-59 | whitespace at the start of the line being read does not change the non-blank lines |
| Selectors.CleanBlankText | main.py:58-59 | text made only of whitespace adds no non-blank line beyond the one already being read |
| Selectors.LeadingBreak | main.py:58 | a break at the start of blank text closes the current line, and the rest of the blank text follows it |
| Selectors.CleanLeadingBlanks | main.py:58-59 | whitespace, blank lines included, before text that starts with a non-blank character does not change the non-blank lines |
| Selectors.CleanTrailingBlanks | main.py:58-59 | whitespace, blank lines included, after text that ends with a non-blank character does not change the non-blank lines |
| Selectors.CleanPaddedText | main.py:58-59 | a trimmed text keeps its non-blank lines when whitespace is added on both sides |
| Selectors.CleanStrippedText | main.py:58-59 | the outer `strip()` changes nothing: the non-blank lines of the stripped text are those of the text |
| Selectors.CleanJoinedLines | main.py:58-59 | splitting lines joined by "\n" and cleaning them gives the cleaned lines, whatever blank, padded or empty last lines they hold |
| Selectors.Normalise | main.py:58-59 | every stored entry is a selector: non-empty, trimmed and on one line |
| Selectors.NormaliseLines | main.py:58-59 | confirming any break-free lines typed one per line stores exactly those lines stripped, with the blank ones dropped, in order and with duplicates |
| Selectors.NormaliseExample | main.py:58-60 | typing "  div.title ", an empty line and " p.body" stores exactly `["div.title", "p.body"]` |
| Selectors.NormaliseJoin | main.py:58-59 | confirming a selector list typed one entry per line gives back exactly that list |
| Selectors.NormaliseIdempotent | main.py:58-60 | confirming the stored list again, one entry per line, leaves it unchanged |
| Selectors.SelectionMessage | main.py:61 | the logged line starts with `Selected Elements: `, is that prefix alone for no selectors and prefix plus the selector for one, and otherwise runs from the first selector's first character to the last selector's last character |
| Selectors.SelectionMessageSnoc | main.py:61 | one more selector appends `, ` and that selector to the message, so the message is the prefix followed by all the selectors joined by `, ` |
| Scrape.LineKinds | main.py:104-110 | data lines, status errors and failures each start with their own prefix and not with either of the other two |
| Scrape.DataLine | main.py:104-105 | the data line is `Selected Data for '`, then the selector, then `': `, then the rendering, with no other characters |
| Scrape.StatusLine | main.py:108 | the status entry is `Error: ` followed by a non-empty run of decimal digits, without a leading zero, that denotes the status code (as `str(status)` prints it) |
| Scrape.FailureLine | main.py:110 | the failure entry starts with `An error occurred: ` followed by the exception's message |
| Scrape.SelectorLines | main.py:102-105 | a 200 response yields one line per selector, in selector order, the `k`-th line being `Selected Data for '<selector k>': <its rendering>` |
| Scrape.Step | main.py:97-110 | one iteration writes one line per selector for a 200 response and none otherwise, and logs one entry per selector for a 200 response and exactly one otherwise |
| Scrape.Run | main.py:95-110 | a session in which some fetch raised ends its log with an `An error occurred` entry |
| Scrape.CompletesCons | main.py:96-110 | a session whose first fetch did not raise runs to its end exactly when the rest of it does |
| Scrape.FileLinesAreData | main.py:99-105 | every line written to the file starts with `Selected Data for '` |
| Scrape.LogMirrorsFile | main.py:104-105 | the log's `Selected Data` entries are exactly the file's lines, in the same order |
| Scrape.StepMirrored | main.py:97-110 | the mirroring holds for each iteration alone, whatever its outcome |
| Scrape.DataLinesKept | main.py:102-105 | every line written for one response is a data entry |
| Scrape.FileLineCount | main.py:96-108 | a session without an exception writes (number of 200 responses) × (number of selectors) lines |
| Scrape.FileLineAt | main.py:96-105 | the line for selector `k` of the 200 response at fetch `i` sits right after the lines of all earlier fetches |
| Scrape.FileAroundFetch | main.py:96-105 | around a 200 response at fetch `i`, the file is the earlier iterations' lines (one per selector per earlier 200 response), then that response's lines, then the later lines |
| Scrape.RunSplitFile | main.py:96-105 | the file of a session that has not raised before fetch `i` is the lines of the first `i` fetches followed by the lines of the rest |
| Scrape.RunSplitLog | main.py:96-110 | the log of a session that has not raised before fetch `i` is the entries of the first `i` fetches followed by the entries of the rest |
| Scrape.StatusLineAt | main.py:107-108 | a response at fetch `i` whose status is not 200 logs `Error: ` followed by its own status code, right after the entries of all earlier fetches |
| Scrape.CompletesTail | main.py:96-108 | the rest of a session with no exception has no exception either |
| Scrape.StatusErrorCount | main.py:107-108 | a session without an exception logs exactly as many entries starting with `Error: ` as there are responses whose status is not 200 (what each entry holds is stated by `StatusLineAt`) |
| Scrape.OkCountBound | main.py:99 | no more responses have status 200 than there were fetches |
| Scrape.DataLinesNotStatus | main.py:104-110 | data entries are neither status errors nor failures |
| Scrape.RunStopsAtRaise | main.py:93-110 | an exception at fetch `k` ends the session: the file keeps exactly the earlier iterations' lines, and the log gains one `An error occurred: <e>` entry after the earlier entries |
| Scrape.FailureCount | main.py:109-110 | the log holds exactly one `An error occurred` entry when some fetch raised, and none otherwise |
| Scrape.AllStatusErrors | main.py:96-108 | when no response has status 200, the file stays empty, the log has one entry per fetch, and entry `i` is `Error: ` followed by fetch `i`'s status code |
| Scrape.StatusLogOnly | main.py:96-108 | with no 200 response, the log is exactly `Error: <code>` for each fetch's status, in fetch order |
| Scrape.NoOk | main.py:99 | with no status-200 response the count of 200 responses is zero |
| Scrape.RunSnocFile | main.py:96-105 | one more completed iteration appends its file lines after the earlier ones |
| Scrape.RunSnocLog | main.py:96-110 | one more completed iteration appends its log entries after the earlier ones |
| Scrape.NextIteration | main.py:96-108 | the session prefix grows by one iteration at a time, as the worker's loop takes it |
| Scrape.RunOne | main.py:96-110 | a session of one fetch is that fetch's iteration |
| Scrape.RunCons | main.py:96-108 | an iteration that did not raise is followed by the rest of the session |
| App.WebScraperApp.constructor | main.py:31-37 | nothing is selected, chosen or running, no worker exists, and the log is empty |
| App.WebScraperApp.Log | main.py:115-117 | a log call appends exactly its message to the list box |
| App.MayStart | main.py:67-90 | the four guards of `start_scraping` all pass (no ensures of its own; `Refusal` and `StartScraping` state what it means) |
| App.Refusal | main.py:66-86 | the message of the first failing guard, in the handler's order; none exactly when all four pass, and always the in-progress message while scraping |
| App.RefusalIdentifiesGuard | main.py:66-86 | each refusal message is given exactly when its own guard is the first to fail, and never the `choose_elements` message |
| App.MessagesDistinct | main.py:39-86 | the five messages of the two handlers (main.py:42, 69, 75, 79, 85) are pairwise different |
| App.WebScraperApp.ChooseElements | main.py:39-46 | while scraping it logs the in-progress message and leaves `is_choosing_elements` as it was; otherwise it logs nothing and sets `is_choosing_elements` |
| App.WebScraperApp.ConfirmSelection | main.py:57-61 | the selector list is replaced as a whole by the normalised text, every entry is a selector, and one `Selected Elements: …` entry is logged |
| App.WebScraperApp.StartScraping | main.py:66-90 | guards are checked in order (already scraping, empty URL, no selectors, empty path), and each failure logs exactly the `Refusal` message of its guard and starts nothing; the path is stored once the first three pass; a worker starts and `is_scraping` becomes true exactly when all four pass |
| App.WebScraperApp.StartTwice | main.py:66-90 | two start requests without a finished scrape between them start at most one worker, and if the first started, the second is refused with "Scraping is already in progress." |
| App.WebScraperApp.ScrapeWebsite | main.py:92-113 | the file at the save path holds exactly the session's lines, the log gains exactly its entries, and `is_scraping` is false however the loop ended |
| App.WebScraperApp.FetchAll | main.py:95-110 | the `with open(...)` loop writes and logs exactly what `Run` gives for the 100 fetches, stopping at the first exception |
| App.WebScraperApp.FetchOnce | main.py:97-108 | one iteration that did not raise writes and logs exactly what `Step` gives |
| App.WebScraperApp.WriteSelected | main.py:102-105 | the per-selector loop writes one line per selector, in selector order, and logs the same lines |

## Left out

- The tkinter widgets are not modelled: layout, the `Toplevel` selection window, the list box's `see` call and the progress bar. Only the log's entries are kept.
- `ChooseElements` does not open a window. Text typed into it reaches the model as the argument of `ConfirmSelection`.
- The lock and the worker thread are not modelled. Calls run one after another, and the worker runs as a separate method after `StartScraping`. So interleavings are not captured, for example `is_scraping` being cleared outside the lock.
- The save dialog, `requests.get` and BeautifulSoup are foreign calls. They become the `chosenPath` parameter, the `fetches` sequence and the `Renderer` function.
- `tqdm` progress output is cosmetic and is left out.
- `ScrapeWebsite` models exceptions only from `requests.get`, raised before the iteration writes anything. Failures when opening the file, parsing, selecting, writing or logging are not modelled.
- The file is modelled as the sequence of lines written, each line being followed by a newline in the real file. A rendering that itself contains a newline still counts as one written line here.
- Status codes are unbounded naturals, and `NatToString` renders only non-negative codes.
- The status a fetch gives is taken as given. Redirects, timeouts and encodings inside `requests` are not modelled.
- The whitespace and line-break sets are written out from Python's `str.isspace` and `str.splitlines` definitions. No case folding or normalisation takes place.
