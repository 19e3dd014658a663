# Auto Pull Request: a verified model of the extension's core

The extension reads the diff of an Azure DevOps or GitHub pull request out of the page,
asks the Gemini API to explain it, and shows the files, the explanation and a review
message on a results page. This project models the data transformations underneath that
flow and proves what they guarantee:

- **Diff extraction** (`AzureHandler`, `GitHubHandler`). The page is given as plain records.
  An Azure header has an optional file name and lines, each with class tokens and text. A
  GitHub file has an optional `data-path` and table rows, each with class tokens and
  optional code-cell texts. Each handler classifies lines by class membership, trims them and
  drops some, and the Azure result is projected to `{fileName, removed, added}`. The loops
  that push into arrays are `while` loops. They are proved equal to recursive specification
  functions, and the lemmas state the promised properties about those functions.
- **Background script** (`Background`). It covers the prompt text built by `formatChanges`,
  the cleanup of the model's reply (code fences and curly quotes), validation of the four
  required sections and coercion of every section to an array, and the shape checks on the
  HTTP response. It also covers the mapping of any failure onto the fixed `ERROR_MESSAGES`
  and the `.env` parser. The module-level API key is the field of a class.
- **Popup** (`Popup`). It covers platform detection, the status badge, the default review
  message, and the messages the injected extraction script sends. The message handler is a
  class over `isTabOpening`, the button state, what storage holds and the storage callbacks
  still pending.
- **Results page** (`Results`). It covers `escapeHtml`, the rendering of code lines, files
  and the explanation, the review-message line formatter, and the text the copy button puts
  on the clipboard.

Shared modules:

- `JsText` holds the JavaScript string operations the code relies on: `trim` with
  ECMAScript whitespace, `includes`, `startsWith`, `split` and `join`.
- `JsonValue` holds JSON values with JavaScript truthiness, property access and `String(v)`.
- `Explanations` holds the explanation shape and the fixed lines of the review message.
- `Diff` holds the records the handlers exchange.

`JSON.parse` is a function parameter returning `None` where it throws. The clipboard and the
results-tab outcome are boolean parameters. The `.env` file's text, the probe's status and
the HTTP response are parameters too.

Behaviour of the code that the model keeps as it is:

- An extraction that finds no files is an empty success.
- The extraction handler runs twice: once from the script, and again inside
  `extractFileNames`.
- Every failure text that `getCodeReview` raises itself lacks the texts of
  `ERROR_MESSAGES`. So unless the server's body names an error of its own (whose message
  is passed on as the failure text), every failure reaches the popup as
  "An unexpected error occurred.".
- The popup's latch is checked when a message arrives but set only in the storage callback.
  So two explanations that arrive before the first callback runs both open a results tab.
  This is the ordinary path: content.js forwards each `EXPLANATION_RESULT` to the extension
  as `EXPLANATION_TO_POPUP`, and the background script (background.js:291-292) sends that
  message out once more, so the popup receives every explanation twice.
- The Azure handler's header lookup at azure-handler.js:23 never matches (see Findings).
  `AzureHandler.ExtractAzureChanges` and `AzureHandler.HandleAzureExtraction` use the
  corrected class token `repos-summary-header`; the code as written is
  `AzureHandler.HandleAzureExtractionAsWritten`.

## Model

| member | source | states |
|---|---|---|
| AzureHandler.Classify | azure-handler.js:48-52 | a line is removed iff it has class `removed`; added iff it has `added` and not `removed`; otherwise unchanged |
| AzureHandler.KeptChanges | azure-handler.js:47-58 | at most one change per line, and every kept content is trimmed and non-empty |
| AzureHandler.KeptChangesSingle | azure-handler.js:54-57 | a line is kept iff its trimmed text is non-empty, with its classified type and trimmed text |
| AzureHandler.KeptChangesAppend | azure-handler.js:47-58 | kept lines keep document order: those of `a + b` are those of `a` followed by those of `b` |
| AzureHandler.FileData | azure-handler.js:36-64 | a header gives a record iff it has a file-name element; the name is trimmed and the changes are the kept lines, possibly none |
| AzureHandler.ExtractAzureFileData | azure-handler.js:36-64 | the loop over the code elements returns exactly `FileData` |
| AzureHandler.ElementsByClass | azure-handler.js:23 | the result is exactly the document's elements that carry the class token: each selected element is in the document with the token, and every such element is selected |
| AzureHandler.ElementsByClassAppend | azure-handler.js:23 | the lookup keeps document order: the elements found in `a + b` are those found in `a` followed by those found in `b` |
| AzureHandler.Named | azure-handler.js:37-42 | the headers kept are exactly those that have a file-name element (the others return `null`), in order |
| AzureHandler.NamedAppend | azure-handler.js:24-33 | named headers keep header order |
| AzureHandler.AzureChangesMatchNamed | azure-handler.js:26-33 | the output has one record per header with a file name; the i-th is the file data of the i-th such header |
| AzureHandler.ExtractAzureChanges | azure-handler.js:22-34 | the loop over the headers returns the specification `AzureChanges` of the headers with the header class (the corrected token `repos-summary-header`, see Findings) |
| AzureHandler.ContentsOfAppend | azure-handler.js:90-95 | filtering by type and mapping to contents distributes over concatenation, so line order is kept |
| AzureHandler.ContentsOfPartition | azure-handler.js:88-96 | every line lands in exactly one of added, removed or unchanged |
| AzureHandler.ContentsOfKeepsTrimmed | azure-handler.js:88-96 | projected contents of trimmed non-empty lines are trimmed and non-empty |
| AzureHandler.Project | azure-handler.js:88-96 | one `{fileName, removed, added}` per file, in file order |
| AzureHandler.HandleAzureExtraction | azure-handler.js:67-100 | a missing files tab or viewer reports the fixed error and extracts nothing; otherwise the i-th record is the projection of the i-th named header's file, one per named header (header lookup with the corrected token, see Findings) |
| AzureHandler.ReportedLinesTrimmed | azure-handler.js:87-97 | each reported record has the trimmed header name and only trimmed non-empty lines |
| AzureHandler.AsWrittenFindsNoHeaders | azure-handler.js:23 | with the dotted class name, a document without that literal token yields no files at all |
| AzureHandler.AsWrittenCounterexample | azure-handler.js:23 | a page with one header and one added line yields no files with the dotted class name |
| AzureHandler.CorrectedFindsSampleFile | azure-handler.js:23 | with the class token `repos-summary-header`, the same page yields its file and line |
| GitHubHandler.RowContributesOnce | github-handler.js:38-48 | a `deletion` row adds to removed, an `addition` row without `deletion` to added, and no row to both |
| GitHubHandler.RowsTrimmed | github-handler.js:37-49 | collected lines are trimmed, and there are no more of them than rows |
| GitHubHandler.RowsAppend | github-handler.js:37-49 | removed and added lines keep row order |
| GitHubHandler.WhitespaceCellKept | github-handler.js:42 | a whitespace-only cell is kept and stored as `""` |
| GitHubHandler.FileEntry | github-handler.js:51-57 | a file is emitted iff it has a removed or added line, as exactly `{fileName, removed, added}` |
| GitHubHandler.GitHubChangesHaveLines | github-handler.js:24-61 | every emitted record has at least one removed or added line |
| GitHubHandler.GitHubChangesDefined | github-handler.js:29-31 | extraction throws iff some file has no `data-path` header |
| GitHubHandler.GitHubChangesAppend | github-handler.js:28-58 | files appear in document order |
| GitHubHandler.CollectLines | github-handler.js:32-49 | the row loop returns exactly the specification's removed and added lines |
| GitHubHandler.ExtractGitHubChanges | github-handler.js:24-61 | the file loop returns exactly `GitHubChanges` |
| GitHubHandler.HandleGitHubExtraction | github-handler.js:64-88 | a missing tab or viewer reports the fixed error; the extraction throws iff a file lacks its path; otherwise the records are those of `GitHubChanges` |
| Explanations.SummaryPoints | popup.js:286-288 | reading the summary fails exactly when parsing throws, the value is `null`, or a truthy summary is not an array; a missing or falsy summary gives no points; otherwise the points are the summary array |
| Background.FirstIncluded | background.js:282-283 | a found message is in the list and included in the text; none is found iff no message is included |
| Background.FirstIncludedIsFirst | background.js:282-283 | the found message is the first included one in list order |
| Background.MapError | background.js:281-284 | the mapped message is always one of `ERROR_MESSAGES`, and is either included in the error text or the unexpected-error text |
| Background.MapErrorFirst | background.js:281-284 | the first message in declaration order that the text includes is chosen |
| Background.NoPeriodIsUnexpected | background.js:281-284 | a text without a period maps to the unexpected-error message |
| Background.FormatChangesSingle | background.js:101-107 | one file serialises to its own block |
| Background.FormatChangesAppend | background.js:98-110 | blocks appear one per file, in input order, joined by a blank line |
| Background.BlockIsJoinOfLines | background.js:101-107 | a block is its lines joined by line breaks |
| Background.BlockLineStructure | background.js:101-107 | a block's lines are the name line, the removed heading and lines, then the added heading and lines: removed before added |
| Background.Prompt | background.js:18-50 | the prompt starts with the fixed preamble and the rest of it is the serialised changes |
| Background.StripFences | background.js:145 | removing fences adds no character |
| Background.StripFencesPrefix | background.js:145 | a backtick-free prefix that does not end in a line break passes through fence removal unchanged |
| Background.StripFencedBody | background.js:145 | a ```` ```json ```` fenced body comes out as the body |
| Background.StraightenQuotes | background.js:146 | each curly double quote becomes `"` and every other character is kept |
| Background.CleanResponseText | background.js:143-147 | the cleaned text holds no U+201C or U+201D |
| Background.FencedResponse | background.js:143-147 | cleaning a fenced, trimmed, straight-quoted body gives the body back |
| Background.CoercedSections | background.js:164-171 | coercion keeps the keys and makes every value an array |
| Background.CoerceSections | background.js:165-169 | the in-place loop keeps arrays, wraps any other value `v` as `[v]` and touches no key else |
| Background.RepairExplanation | background.js:152-171 | repair succeeds iff title and the four required sections are truthy (an empty array passes); its result has every section an array and every other field unchanged |
| Background.RepairIdempotent | background.js:164-171 | validating and coercing a repaired explanation changes nothing |
| Background.ResponseText | background.js:137-147 | a `null` body fails reading `error`; a truthy `error` fails with its message or "Unknown error"; a missing or falsy answer text is an invalid structure; a truthy non-string text fails calling `trim`; otherwise the text is the answer string |
| Background.ReviewResponse | background.js:135-175 | a non-2xx status fails with its HTTP error and a shape failure with its own text; once the text is found, the review succeeds iff the cleaned text parses to a value with the required fields, and the result is that value repaired; every other failure is "Failed to parse Gemini API response" |
| Background.ShapeFailuresPrecedeParsing | background.js:135-141 | a bad status or a missing candidate text fails whatever `JSON.parse` would do |
| Background.EnvEntryOfLine | background.js:62-63 | a line gives `key.trim() → value.trim()` from the parts before and between the first two `=`, only when both raw parts are non-empty |
| Background.AssignKeys | background.js:61-64 | a key is defined iff some entry names it |
| Background.AssignLastWins | background.js:61-64 | the last entry naming a key gives its value |
| Background.EnvVarsKeys | background.js:61-64 | a key is in the parsed `.env` iff some line defines it |
| Background.EnvVarsLastWins | background.js:61-64 | later lines overwrite earlier ones |
| Background.CodeReview | background.js:113-176 | a missing key fails with the key error, a failed probe with its HTTP error, and otherwise the outcome is that of the response; a success is always a well-formed explanation |
| Background.TextNotStringIsUnexpected | background.js:143-144 | the error from a non-string candidate text maps to the unexpected-error message |
| Background.HttpErrorRaisedLocally | background.js:135 | HTTP-status errors carry no period, so no `ERROR_MESSAGES` text |
| Background.RaisedLocallyIsUnexpected | background.js:281-284 | every locally raised error text maps to the unexpected-error message |
| Background.ReviewFailuresRaisedLocally | background.js:135-174 | without an error in the body, every failure of the review call is raised locally |
| Background.LocalFailuresAreUnexpected | background.js:264-290 | without an error from the server, every failure reaches the popup as "An unexpected error occurred." |
| Background.BackgroundScript.constructor | background.js:54 | no API key is loaded at start |
| Background.BackgroundScript.LoadApiKey | background.js:57-73 | the stored key is the `.env` value of `GEMINI_API_KEY`; a missing or empty one fails with "GEMINI_API_KEY not found" |
| Background.BackgroundScript.TestGeminiAvailability | background.js:76-95 | the key is loaded only when none is held; the probe succeeds iff a key is present and the status is 2xx |
| Background.BackgroundScript.GetCodeReview | background.js:113-176 | the outcome is `CodeReview` for the key held before the call; the prompt is sent iff the probe passed |
| Background.BackgroundScript.OnExplainChanges | background.js:264-290 | the popup receives the review's explanation on success and the mapped `ERROR_MESSAGES` text on failure; that text is the unexpected-error one when the server sent no error |
| Popup.DetectPlatform | popup.js:57-65 | Azure iff the URL includes `dev.azure.com`; GitHub iff it does not but includes `github.com`; otherwise none |
| Popup.PlatformStatus | popup.js:304-336 | the badge follows the same ordered classification; a failed tab query or an unknown URL shows the offline badge |
| Popup.Bullets | popup.js:292-293 | one `• point` line per summary point, in order |
| Popup.GenerateDefaultReviewMessage | popup.js:284-301 | the fallback text is returned exactly when reading the summary throws |
| Popup.ReviewMessageLines | popup.js:290-296 | the message's lines are the fixed header, one bullet per point (an empty line when there are none) and the footer |
| Popup.ExtractionScriptMessages | popup.js:125-157 | an unsupported URL sends only the unsupported-platform error; a missing handler only the handler error |
| Popup.UnsupportedRunsNoHandler | popup.js:125-132 | on an unsupported URL nothing else is sent, whatever the handlers would do |
| Popup.ExtractionScriptOrder | popup.js:67-157 | an error is the last message; FILE_CHANGES is followed by EXPLAIN_CHANGES with the same changes, and is sent iff both handler runs extracted |
| Popup.PopupState.constructor | popup.js:338-345 | a fresh popup has the latch clear, the button ready and no callbacks pending |
| Popup.PopupState.StartExtraction | popup.js:161-191 | the button is disabled and comes back only when opening the tab fails; nothing else changes |
| Popup.PopupState.Receive | popup.js:196-282 | FILE_CHANGES stores only a present, non-empty list; ERROR resets the button and clears the latch; an explanation is queued only when truthy and the latch is clear |
| Popup.PopupState.RunStorageCallback | popup.js:224-241 | without stored file changes nothing changes; with them the latch is set, a tab opens, and the explanation and its generated review message are stored |
| Popup.PopupState.FinishResultsTab | popup.js:245-273 | the latch is cleared whether the tab handling succeeded or failed; the button comes back only on success |
| Popup.TwoExplanationsBeforeCallback | popup.js:217-231 | two explanations received before the first storage callback open two results tabs |
| Results.EscapeHtml | results.js:271-279 | a non-string gives `""`; reading a string's entities back gives the string |
| Results.EscapeSingle | results.js:273-278 | the five passes escape one character as its entity, `&` first, with no double escaping |
| Results.EscapeIsEach | results.js:273-278 | the chain of replacements escapes each character independently |
| Results.UnescapeEscape | results.js:273-278 | escaping loses nothing: the entities decode to the original text |
| Results.EscapeRemovesMarkup | results.js:273-278 | escaped text holds none of `<`, `>`, `"` or `'` |
| Results.EscapeKeepsPlainText | results.js:273-278 | text without `&<>"'` is returned unchanged |
| Results.StripMarker | results.js:205-206 | a leading marker is removed exactly when whitespace follows it, together with all that whitespace; nothing else is removed |
| Results.LineStylesDistinct | results.js:194-201 | class and sign follow the line's type and tell the three types apart |
| Results.LineTextPlain | results.js:204-206 | text starting with neither marker is shown as it is |
| Results.CodeLineShowsText | results.js:193-211 | a code line shows its text, markers stripped, escaped between the fixed tags |
| Results.CodeLinesAppend | results.js:184 | the lines of a file are rendered in order |
| Results.FormatFileChangesAppend | results.js:179-181 | files are rendered one block each, in input order |
| Results.AsWrittenShowsError | results.js:183-191 | any non-empty list of stored records is shown as "Error displaying code changes" |
| Results.AsWrittenCounterexample | results.js:184 | one stored file with one added line is shown as the error state |
| Results.ToFileLines | results.js:183-191 | a stored record becomes one line per removed and added text, with its name |
| Results.ToFileLinesRoundTrip | azure-handler.js:88-96 | the Azure projection of those lines gives the stored record back |
| Results.DisplayFileChanges | results.js:65-80 | an absent or empty list shows "No code changes available" |
| Results.AsWrittenRendersLinesRecords | results.js:179-191 | the code as written renders `{fileName, changes}` records as the corrected rendering does |
| Results.DisplayFileChangesIntended | results.js:65-80 | the corrected page shows stored records as the code shows the same files given with their lines, never the error state |
| Results.Capitalize | results.js:128-129 | the section title is the name with its first letter upper-cased |
| Results.SectionBlock | results.js:126-144 | a section block is emitted iff the value is a non-empty array |
| Results.SectionsHtml | results.js:124-146 | the section blocks are empty or begin with a line break, so they can never be taken for the title block |
| Results.TitleHtml | results.js:109-113 | the title block is emitted iff `title` is truthy |
| Results.FormatExplanation | results.js:105-149 | the accumulating loop returns exactly `ExplanationHtml` |
| Results.AppendSections | results.js:125-145 | the `forEach` appends each name's block in order |
| Results.TitleComesFirst | results.js:109-146 | the rendering opens with the title block iff the explanation has a truthy title |
| Results.SectionsReadOnlyNames | results.js:124-146 | the blocks depend only on the listed sections' values |
| Results.OtherKeysIgnored | results.js:105-149 | explanations that agree on the title and on the five listed sections render alike, whatever other keys they hold |
| Results.PointItemsShowEach | results.js:134-140 | every point of a shown section appears escaped in its block |
| Results.DisplayExplanation | results.js:82-103 | no stored explanation, one that fails to parse, and a falsy value or one without truthy sections each show their fixed empty state |
| Results.DisplayExplanationRenders | results.js:86-98 | an explanation with truthy sections is rendered, whether stored as a value or as text that parses to it |
| Results.ReviewLineHtml | results.js:164-169 | a line renders to nothing iff it is empty; a line whose trimmed form starts with `-` renders as the list item of the rest after the dash, trimmed; any other line as the paragraph of the line |
| Results.ListItem | results.js:166 | the item is `<li>`, then text that decodes back to the given text, then `</li>` |
| Results.Paragraph | results.js:168 | the paragraph is `<p>`, then text that decodes back to the given line, then `</p>`, and is never a list item |
| Results.FormatReviewMessageBreak | results.js:162-170 | a line break only separates: the message renders line after line |
| Results.RenderJoinedLines | results.js:162-170 | rendering lines joined by line breaks renders each line |
| Results.DashLineIsItem | results.js:165-166 | `- p` for a trimmed non-empty `p` renders as the list item of `p` |
| Results.DisplayReviewMessage | results.js:151-177 | no message shows the empty state; a message that is not a string shows the error state; a string is rendered line by line |
| Results.DashLines | results.js:243 | one `- point` line per summary point, in order |
| Results.CopyText | results.js:218-256 | nothing is copied iff no explanation is stored; a copy happens only when the clipboard accepts it |
| Results.CopiedLines | results.js:236-246 | the copied text's lines are the fixed header, one dash line per point in order, and the footer |
| Results.CopiedPointsRenderAsItems | results.js:236-246 | each trimmed non-empty point of the copied text renders as its list item when shown as a review message |

## Left out

- Browser APIs are left out: `chrome.runtime` messaging, `chrome.storage`, `chrome.tabs`,
  `chrome.scripting`, the clipboard and `fetch`. Their effects are the popup's state fields
  and the parameters of the functions that use them.
- The `setTimeout` waits, tab clicks and smooth scrolling in both handlers are left out.
  Extraction reads the abstract page records once per run.
- The real DOM queries are left out: `querySelector`, `getElementsByClassName` on live
  collections, `textContent`. Class lists are sets of tokens, and a missing element is
  `None`.
- `JSON.parse` and `JSON.stringify` are left out. Parsing is a parameter, and the
  background script's stringified explanation is the popup's input text.
- The `response.json()` rejection and a failing `.env` fetch are left out. The body and the
  `.env` text are given.
- JSON numbers are integers. `String(v)` of fractions and exponents is not modelled.
- `updateOverviewTab` is left out: it is an injected script that polls for inputs and
  dispatches DOM events.
- `getAzureFileName` and `getGitHubFileName` are left out, and so is content.js (message
  forwarding only).
- The status texts, button captions and their timers are left out, and so is the
  regenerate button (it only sends a message).
- The `generationConfig` floats and the Gemini URL are left out.
- The "❌ Unsupported platform" branch inside `extractFileNames` is left out. It is
  unreachable, because the script already stopped on the same URL.
- Popup.GenerateDefaultReviewMessage: takes the explanation as text only. The popup always
  passes the string it received, so the non-string branch is not modelled.
- Results.Capitalize: upper-cases ASCII letters only. It is applied only to the five fixed
  section names.
- Popup.PopupState.StartExtraction: does not model the page reload or the script
  injection; it only records whether opening the tab failed.

## Findings

| source | as written | input that shows it | evidently intended | confidence | as-written member | corrected member |
|---|---|---|---|---|---|---|
| azure-handler.js:23 | `getElementsByClassName(".repos-summary-header")` takes the selector's leading dot as part of the class token, so no header ever matches | a page with one header of class `repos-summary-header` named `app.js` with one added line `x=1;` yields no files | match the class token `repos-summary-header` | high, not executed | AzureHandler.AsWrittenCounterexample | AzureHandler.CorrectedFindsSampleFile |
| results.js:184 | `formatSingleFileChanges` reads `file.changes`, but the stored records are `{fileName, removed, added}`, so reading `changes.map` throws | stored `[{fileName: "app.js", removed: [], added: ["x=1;"]}]` shows "Error displaying code changes" | render each record's removed and added lines | high, not executed | Results.AsWrittenCounterexample | Results.DisplayFileChangesIntended |
