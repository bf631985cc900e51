# tissue-frontend: a verified model of the client-side logic

tissue-frontend is a React client that turns YouTube videos and documents into
analysis reports and lets the reader edit them as block documents. This project
models in Dafny the parts of the client that decide something without touching
the browser. It also proves what those parts promise. The parts are:

- the block editor, which exists in three diverging copies: markdown shortcuts,
  edits by block id, the markdown-to-blocks parser, the builder that turns an
  analysis result into a document, the JSON export, numbered-list labels and
  YouTube video ids;
- the formatters: video durations (three variants, one of them with an ISO 8601
  branch), report titles taken from storage keys, file sizes, and a section
  body without a first line that repeats its title;
- the input box: YouTube id extraction, request routing, and the pending-file
  list;
- the sign-up and login forms: the password rules, the order of the submit
  guards, the email pattern and the token gate;
- the simulated analysis-progress ticker;
- the report list: its filter, its preview text and its newest-first sort;
- the visualization payload normaliser;
- the knowledge dashboard: job polling, the progress merge, and navigation to a
  report once per completed job.

Modules:

| file | module | models |
|---|---|---|
| js_text.dfy | `JsText` | JavaScript string helpers used everywhere: white space, `trim`, `split`/`join`, `indexOf`, number text, `parseInt` |
| blocks.dfy | `BlockEditor` | the block document and the edits shared by the three editors |
| markdown.dfy | `Markdown` | `parseInlineMarkdown`, `parseMarkdownToBlocks` and `blocksToJson` of the two page editors |
| editors.dfy | `AnalysisBlocks`, `PagesEditor`, `EditorPageCopy`, `ComponentsEditor` | the analysis-to-blocks builders and what differs between the three copies |
| youtube_search.dfy | `YoutubeSearch` | the three duration formatters and the blank-query guards of the search pages |
| signup.dfy | `Signup` | `validatePassword` and the sign-up and confirm handlers |
| login.dfy | `Login` | `isValidEmail` and `handleLogin` |
| reports.dfy | `Reports` | `extractTitleFromKey`, `formatFileSize`, the preview, the list filter and the sort |
| duplicate_title.dfy | `DuplicateTitle` | `getContentWithoutDuplicateTitle` |
| input_box.dfy | `InputBox` | `extractYoutubeId`, the routing of `handleSubmit`, and the file list |
| analysis_status.dfy | `AnalysisStatus` | the progress ticker |
| visualization.dfy | `Visualization` | `normalizedSection`, the purpose label and the network-data guard |
| my_knowledge.dfy | `MyKnowledge` | the dashboard's jobs, progress polling, completion navigation and deletion |

Shapes:

- Operations that replace React state wholesale through `map`, `filter` or a
  spliced copy are functions on sequences.
- Loops that push into a local array are methods with loop invariants. Each is
  proved equal to a function, and the function's properties are proved as
  lemmas.
- Components whose handlers write their state fields one after another are
  classes. Their methods state the whole new state: the ticker, the forms, the
  input box and the dashboard.
- The in-place `reportsList.sort` is an insertion sort on an `array`.
- The network is a parameter. A request's answer comes in as an argument, or as
  a function from request to answer. The requests a handler makes are recorded
  in a `sent`, `posts` or `requests` field, so that "no request" can be stated.

Where the code and its description disagree, the model follows the code:

- In the components report list, the title fallback `'제목 없음'` after
  `extractTitleFromKey` is dead. That function never returns the empty string
  (`Reports.ExtractTitleFromKey`).
- A YouTube link typed without `http://` or `https://` goes to the search
  endpoint, not to analysis (`InputBox.SchemelessLinkIsSearched`).
- `typeof null === 'object'`, so the data-flattening loop of
  `normalizedSection` also removes a `data.data` that is `null`.
- The report deletion keeps a report exactly when `(job_id || id)` differs from
  the given id. A report with a `job_id` is not removed because its `id`
  matches.

## Model

| member | source | states |
|---|---|---|
| JsText.Utf16Length | src/components/SignupModal/SignupModal.js:22 | `length` lies between the number of characters and twice it |
| JsText.Utf16LengthAppend | src/components/SignupModal/SignupModal.js:22 | the length of a concatenation is the sum of the lengths |
| JsText.Utf16LengthOfBmp | src/components/SignupModal/SignupModal.js:22 | `length` is the number of characters iff none lies outside the Basic Multilingual Plane |
| JsText.Utf16LengthOfPair | src/components/SignupModal/SignupModal.js:22 | two characters take the units of each |
| JsText.Utf16Prefix | src/components/ReportsPage.js:220 | `substring(0, n)`: a prefix of the text within n units, the whole text when it fits, and one more character would not fit |
| JsText.Trim | src/components/InputBox/InputBox.js:82 | the result is the input without its leading and trailing JavaScript white space, and everything dropped is white space |
| JsText.TrimIdempotent | src/components/YoutubeSearchPage.js:269-271 | trimming a trimmed query changes nothing |
| JsText.JoinSplit | src/pages/EditorPage.js:16-24 | joining the pieces of `split(sep)` with `sep` gives back the text |
| JsText.JoinPair | src/components/ReportsPage.js:216 | two pieces are joined by exactly one separator |
| JsText.StringToNumber | src/components/YoutubeSearchPage.js:215-218 | `Number(s)`: blank text reads as 0; a number is only read from text ending in a digit |
| JsText.TrimmedToNumber | src/components/YoutubeSearchPage.js:215-218 | the same reading once the white space is gone |
| JsText.StringToNumberOfIntToString | src/components/YoutubeSearchPage.js:215-218 | `Number(String(i))` is `i` for every integer, negatives included |
| JsText.StringToNumberTrims | src/components/YoutubeSearchPage.js:215-218 | white space around the text does not change the number |
| JsText.TrimOfUnspaced | src/components/InputBox/InputBox.js:82 | text with no white space at either end trims to itself |
| BlockEditor.DetectMarkdown | src/pages/Editor/FixedNotionEditor.js:24-71 | empty text or an open IME composition never converts; otherwise a conversion happens iff the text is a trigger; every trigger except YouTube resets the content; a YouTube block keeps the whole text; `checked` is set iff the text is `- [x] ` |
| BlockEditor.TriggerTable | src/pages/EditorPage/EditorPage.js:34-47 | each block type is produced by exactly its own whole-string trigger (`# `, `## `, `### `, `- `, `^\d+\. $`, the two checkbox texts, `> `, three backticks, a YouTube prefix), and never paragraph |
| BlockEditor.NoYoutubeRule | src/components/FixedNotionEditor.js:23-64 | without the YouTube rule a YouTube link is no shortcut |
| BlockEditor.UpdateBlockType | src/pages/Editor/FixedNotionEditor.js:73-94 | length, order, ids and placeholders are kept; only blocks with the id get the new type, content and flag |
| BlockEditor.UpdateBlockContent | src/pages/Editor/FixedNotionEditor.js:96-104 | only the content of blocks with the id changes; every other block is untouched |
| BlockEditor.ToggleCheckbox | src/pages/EditorPage/EditorPage.js:194-196 | only blocks with the id change, and their flag becomes `!checked` (an undefined flag becomes true) |
| BlockEditor.ToggleTwice | src/pages/Editor/FixedNotionEditor.js:255-263 | toggling twice restores every block whose flag was defined; an undefined flag ends as false |
| BlockEditor.UpdateBlockTypeIdempotent | src/components/FixedNotionEditor.js:66-87 | setting a block's type twice equals setting it once |
| BlockEditor.FindIndex | src/pages/Editor/FixedNotionEditor.js:108 | `findIndex`: the first block with the id, or -1 when none has it |
| BlockEditor.FindIndexOfDistinct | src/pages/Editor/FixedNotionEditor.js:557 | with distinct ids, the index found for a block's id is its position |
| BlockEditor.AddNewBlock | src/pages/Editor/FixedNotionEditor.js:106-124 | exactly one empty paragraph is inserted right after the first block with the id, or at the front when no block has it; everything else keeps its order |
| BlockEditor.RemoveId | src/pages/Editor/FixedNotionEditor.js:130 | the filter leaves no block with the id |
| BlockEditor.RemoveIdAppend | src/pages/EditorPage/EditorPage.js:88 | the filter keeps the relative order of the rest (it distributes over concatenation) |
| BlockEditor.RemoveAbsentId | src/components/FixedNotionEditor.js:123 | a document without the id passes the filter unchanged |
| BlockEditor.DeleteBlock | src/pages/Editor/FixedNotionEditor.js:126-140 | a document of at most one block is never changed; otherwise every block with the id is removed |
| BlockEditor.DeleteAbsentId | src/pages/EditorPage/EditorPage.js:85-97 | deleting an id no block carries changes nothing |
| BlockEditor.DeleteUndoesAdd | src/components/FixedNotionEditor.js:99-133 | deleting the block just added, under a fresh id, restores the document |
| BlockEditor.CountNumbered | src/pages/Editor/FixedNotionEditor.js:558 | the number of numbered blocks never exceeds the length |
| BlockEditor.NumberedLabel | src/pages/Editor/FixedNotionEditor.js:556-559 | the label counts the numbered blocks up to the block; it is at least 1 for a numbered block and at most its position plus one |
| BlockEditor.NumberedLabelsConsecutive | src/pages/EditorPage/EditorPage.js:321 | two numbered blocks in a row carry consecutive labels |
| BlockEditor.FirstNumberedIsOne | src/components/FixedNotionEditor.js:424-427 | a numbered block with no numbered block before it is labelled 1 |
| BlockEditor.NoneNumbered | src/components/FixedNotionEditor.js:426 | a document without numbered blocks counts none |
| BlockEditor.VideoId | src/pages/Editor/FixedNotionEditor.js:646-647 | with a `watch?v=` marker the id holds no `&`; without one it is a `/`-free suffix of the content |
| BlockEditor.VideoIdOfWatchUrl | src/pages/Editor/FixedNotionEditor.js:646-647 | the id of `https://www.youtube.com/watch?v=<id>` followed by `&...` or nothing is `<id>` |
| BlockEditor.VideoIdOfShortUrl | src/pages/Editor/FixedNotionEditor.js:646-647 | the id of `https://youtu.be/<id>` is `<id>` |
| BlockEditor.HandleInput | src/pages/Editor/FixedNotionEditor.js:157-173 | composing input changes nothing; no id, order or other block changes; a missing id with no shortcut changes nothing |
| BlockEditor.HandleInputStores | src/pages/EditorPage/EditorPage.js:115-125 | with distinct ids, input that is no shortcut stores the new content, and a shortcut converts the block |
| Markdown.ReplaceWithoutDelimiter | src/pages/Editor/FixedNotionEditor.js:270 | text without the delimiter is left alone |
| Markdown.WrappedRun | src/pages/Editor/FixedNotionEditor.js:267 | a delimited run of plain text becomes exactly one element |
| Markdown.ParseInlinePlain | src/pages/Editor/FixedNotionEditor.js:265-273 | text without `*` or `=` is not rewritten |
| Markdown.InlineBold | src/pages/EditorPage/EditorPage.js:199-203 | `**w**` becomes `<strong>w</strong>` |
| Markdown.StripTags | src/pages/Editor/FixedNotionEditor.js:391 | tag removal never lengthens the text |
| Markdown.StripTagsLeavesNoTag | src/pages/Editor/FixedNotionEditor.js:391 | no `<[^>]+>` match remains after stripping |
| Markdown.StripTagsIdempotent | src/pages/EditorPage/EditorPage.js:252 | stripping twice equals stripping once |
| Markdown.StripNoTag | src/pages/Editor/FixedNotionEditor.js:391 | text without a tag is kept as is |
| Markdown.BoldThenStrip | src/pages/Editor/FixedNotionEditor.js:267 | exporting parsed bold text gives back the plain text |
| Markdown.StripAfterTag | src/pages/Editor/FixedNotionEditor.js:391 | a leading tag is dropped |
| Markdown.StripPlainPrefix | src/pages/Editor/FixedNotionEditor.js:391 | leading text without `<` is kept |
| Markdown.SavedSections | src/pages/Editor/FixedNotionEditor.js:387-392 | the `filter`/`map` chain: every section is a paragraph with no tag left; there are as many sections as blocks exactly when no block is heading1 or youtube |
| Markdown.BlocksToJson | src/pages/Editor/FixedNotionEditor.js:384-394 | the saved document is tagged `json` and holds no more sections than the editor has blocks |
| Markdown.NothingSaved | src/pages/EditorPage/EditorPage.js:249-254 | a document of only heading1 and youtube blocks saves no section |
| Markdown.SavedSectionsAppend | src/pages/EditorPage/EditorPage.js:252 | the sections follow the order of the blocks |
| Markdown.SavedSectionsOne | src/pages/Editor/FixedNotionEditor.js:388-392 | one block gives one stripped paragraph exactly when it is neither heading1 nor youtube |
| Markdown.NumberedMarker | src/pages/Editor/FixedNotionEditor.js:304-306 | the `^\d+\.\s` marker is absent or at least three characters long |
| Markdown.LineBlock | src/pages/Editor/FixedNotionEditor.js:284-321 | a youtube line keeps its text verbatim; heading1 only comes from `# ` |
| Markdown.BlockIdsDiffer | src/pages/Editor/FixedNotionEditor.js:324 | different counters give different `block_n` ids |
| Markdown.MarkdownBlocks | src/pages/Editor/FixedNotionEditor.js:275-332 | one block per non-blank trimmed line |
| Markdown.ParseMarkdownToBlocks | src/pages/Editor/FixedNotionEditor.js:275-332 | the push loop with its counter computes exactly `MarkdownBlocks` |
| Markdown.MarkdownBlocksShape | src/pages/Editor/FixedNotionEditor.js:323-328 | the blocks carry ids block_1 .. block_n in line order and an empty placeholder |
| Markdown.OneLine | src/pages/Editor/FixedNotionEditor.js:280-282 | blank text gives no block; one non-blank line gives one block of its trimmed text |
| Markdown.HeadingPrefixes | src/pages/Editor/FixedNotionEditor.js:288-297 | a line starting `### `, `## ` or `# ` becomes heading3, heading2 or heading1 respectively, whatever follows the prefix |
| Markdown.EmptyTextNoBlocks | src/pages/Editor/FixedNotionEditor.js:276-282 | the empty text has no blocks |
| AnalysisBlocks.HeaderBlocks | src/pages/Editor/FixedNotionEditor.js:338-367 | a heading1 first and a heading2 last; the YouTube embed sits between them iff the URL is set and no section has type youtube |
| AnalysisBlocks.Renumbered | src/pages/Editor/FixedNotionEditor.js:373-376 | each block keeps everything but its id, which becomes block_(position+1) |
| AnalysisBlocks.RenumberedDistinct | src/pages/Editor/FixedNotionEditor.js:340 | renumbered blocks never share an id |
| AnalysisBlocks.ParseGuarded | src/pages/EditorPage/EditorPage.js:206-227 | a content that is not a string gives no blocks; a string gives its markdown blocks |
| AnalysisBlocks.ConvertReport | src/pages/Editor/FixedNotionEditor.js:334-381 | the push loop with its counter builds exactly the renumbered header plus the sections' blocks |
| AnalysisBlocks.PushSections | src/pages/Editor/FixedNotionEditor.js:370-378 | the `forEach` over sections appends every section's parsed blocks in order with consecutive ids |
| AnalysisBlocks.PushRenumbered | src/pages/Editor/FixedNotionEditor.js:373-376 | one section's parsed blocks are appended with the next ids |
| AnalysisBlocks.ReportBlocksShape | src/pages/EditorPage/EditorPage.js:230-246 | the document opens with the title heading1, then the embed only when due, then the summary heading2; ids are consecutive and distinct |
| AnalysisBlocks.ReportBlocksSections | src/pages/Editor/FixedNotionEditor.js:369-378 | after the header come the sections' parsed blocks, in order |
| PagesEditor.ConvertAnalysisToBlocks | src/pages/Editor/FixedNotionEditor.js:334-381 | no document (the `TypeError` of `content.split`) exactly when some section's content is not a string; otherwise the document built from `final_output` |
| EditorPageCopy.ConvertAnalysisToBlocks | src/pages/EditorPage/EditorPage.js:230-246 | builds the document from `report` |
| EditorPageCopy.NonStringSectionsAddNothing | src/pages/EditorPage/EditorPage.js:207 | sections whose content is not a string add no blocks |
| ComponentsEditor.ParagraphHeader | src/components/FixedNotionEditor.js:226-249 | block_1 is the title heading1; block_2 is the `🔗 원본 영상: <url>` paragraph only when `youtube_url` is set; the last header block is the summary heading2 |
| ComponentsEditor.SectionParagraphs | src/components/FixedNotionEditor.js:252-261 | exactly one paragraph per section |
| ComponentsEditor.ParagraphLayoutShape | src/components/FixedNotionEditor.js:221-264 | heading1, the source paragraph only with a URL, heading2, then one paragraph per section whose content is that section's `content` as is, absent or not; ids run block_1, block_2, … and are distinct; placeholders are empty |
| ComponentsEditor.ConvertAnalysisToBlocks | src/components/FixedNotionEditor.js:221-264 | the pushes build exactly that layout, with distinct ids, for every input |
| ComponentsEditor.PushParagraphs | src/components/FixedNotionEditor.js:252-261 | the `forEach` appends one paragraph per section, numbered on from the blocks already pushed, carrying the section's content unchanged |
| ComponentsEditor.CompositionEnd | src/components/FixedNotionEditor.js:328-338 | detection runs first; with no trigger only the content of the block changes; no other block changes |
| ComponentsEditor.YoutubeLinkStaysText | src/components/FixedNotionEditor.js:328-338 | a pasted YouTube link stays a plain block holding the link |
| ComponentsEditor.YoutubeInputStaysText | src/components/FixedNotionEditor.js:150-166 | typed YouTube input does not change the block's type |
| YoutubeSearch.JsRem | src/pages/Search/YoutubeSearchPage.js:30-31 | JavaScript `%`: the remainder has the sign of the dividend |
| YoutubeSearch.Decomposition | src/pages/Search/YoutubeSearchPage.js:29-31 | for a non-negative count, minutes and seconds are below 60 and h*3600+m*60+s equals the count |
| YoutubeSearch.SecondsTextShape | src/pages/Search/YoutubeSearchPage.js:33-37 | with an hour the text is `H:MM:SS`, otherwise `M:SS`, with padded fields |
| YoutubeSearch.ClockTextParses | src/pages/Search/YoutubeSearchPage.js:33-37 | reading a clock text back gives the seconds its fields stand for |
| YoutubeSearch.ClockRoundTrip | src/components/YoutubeSearchPage.js:216-221 | the clock text of n reads back as n |
| YoutubeSearch.IsoBranchUnreachable | src/pages/Search/YoutubeSearchPage.js:13-27 | as written, every string starting with `PT` gives null before the ISO branch |
| YoutubeSearch.IsoExampleAsWritten | src/pages/Search/YoutubeSearchPage.js:10-38 | as written, `PT1H2M3S` gives null |
| YoutubeSearch.FormatDurationNull | src/pages/Search/YoutubeSearchPage.js:11-13 | null exactly for a falsy value, the string `0`, or a value whose `parseInt` is NaN or at most 0 |
| YoutubeSearch.FormatDurationSeconds | src/pages/Search/YoutubeSearchPage.js:29-37 | a positive number prints as its clock text, which reads back as the number |
| YoutubeSearch.IsoDuration | src/pages/Search/YoutubeSearchPage.js:15-26 | corrected: `PT<h>H<m>M<s>S` prints as the clock text of its fields |
| YoutubeSearch.IsoExampleCorrected | src/pages/Search/YoutubeSearchPage.js:15-26 | corrected: `PT1H2M3S` gives `1:02:03` |
| YoutubeSearch.IsoAgreesWithSeconds | src/pages/Search/YoutubeSearchPage.js:15-37 | corrected: an ISO duration and its number of seconds print alike |
| YoutubeSearch.FieldsOfSeconds | src/pages/Search/YoutubeSearchPage.js:29-31 | the fields of h*3600+m*60+s are h, m and s when m and s are below 60 |
| YoutubeSearch.FormatSecondsOrEmpty | src/components/YoutubeSearchPage.js:214-222 | empty iff the value is falsy or a string that `Number` reads as NaN; a positive count prints a clock text that reads back as the count; a non-empty numeric string prints the clock text of its number |
| YoutubeSearch.SecondsTextNotEmpty | src/components/YoutubeSearchPage.js:219-221 | clock text is never empty |
| YoutubeSearch.FormatNumericText | src/components/YoutubeSearchPage.js:214-222 | the decimal text of a count formats like the count, except that `"0"` is truthy and gives `0:00` |
| YoutubeSearch.FormatNinetyText | src/components/YoutubeSearchPage.js:214-222 | `"90"` gives `1:30` |
| YoutubeSearch.FormatBlankText | src/components/YoutubeSearchPage.js:214-222 | `" "` is truthy, reads as 0 and gives `0:00` |
| YoutubeSearch.FormatLetterText | src/components/YoutubeSearchPage.js:215 | `"abc"` is NaN and gives the empty text |
| YoutubeSearch.DurationLabel | src/pages/YoutubeSearch.js:128-140 | a label iff `parseInt(duration, 10)` is positive, and it starts with `영상 길이: ` |
| YoutubeSearch.DurationLabelOfNumber | src/pages/YoutubeSearch.js:129-138 | a positive count gives `영상 길이: ` and its clock text |
| YoutubeSearch.SearchFromPage | src/components/YoutubeSearchPage.js:253-259 | no request iff the query is blank; otherwise the query is sent untrimmed with `max_results` 10 |
| YoutubeSearch.SearchClickTarget | src/components/YoutubeSearchPage.js:268-273 | navigation iff the query is not blank, with the trimmed, non-empty query |
| YoutubeSearch.SearchFromResultsPage | src/pages/YoutubeSearch.js:39-47 | a non-string argument falls back to the field; no request for a blank query; otherwise the trimmed query is sent |
| Signup.ValidatePassword | src/components/SignupModal/SignupModal.js:20-28 | each of the five flags holds iff its rule holds: at least 8 UTF-16 units, an upper-case, lower-case, digit or listed special character |
| Signup.EveryIsConjunction | src/pages/SignUp/SignupModal.js:34 | `every(Boolean)` over the flags is their conjunction |
| Signup.StrongPasswordShape | src/components/SignupModal.js:160-168 | a password meeting every rule is at least 8 UTF-16 units (so at least 4 characters) long, and one of its characters is neither a letter nor a digit |
| Signup.PasswordLengthFloor | src/components/SignupModal/SignupModal.js:22 | a long enough password has at least 4 characters |
| Signup.SpecialIsNotAlphanumeric | src/components/SignupModal/SignupModal.js:26 | a listed special character is neither a letter nor a digit |
| Signup.EmojiPasswordLongEnough | src/components/SignupModal/SignupModal.js:22 | six characters, two of them emoji, are 8 units long and can meet every rule |
| Signup.SignupGuard | src/components/SignupModal/SignupModal.js:35-46 | the empty email is reported first, then unmet rules, then a mismatch; no message iff all three pass |
| Signup.GuardPassed | src/pages/SignUp/SignupModal.js:33-35 | passing the guard means a non-empty email and a confirmed password at least 8 UTF-16 units long |
| Signup.FailureText | src/components/SignupModal/SignupModal.js:56-60 | `detail`, else `message`, else the error's message, else the fixed text; never empty |
| Signup.SignupModal.HandleSignup | src/components/SignupModal/SignupModal.js:32-65 | a failing guard sets its message and sends nothing; otherwise exactly one sign-up request; success opens the confirmation step, failure reports the reason; loading ends cleared |
| Signup.SignupModal.HandleConfirm | src/components/SignupModal/SignupModal.js:67-87 | the code is sent; success marks the account confirmed, failure reports the reason |
| Signup.LocalSignupModal.HandleSignup | src/components/SignupModal.js:172-192 | the timer starts iff every guard passes, with no request; otherwise the guard's message |
| Signup.LocalSignupModal.TimerFires | src/components/SignupModal.js:188-191 | loading ends and the modal closes |
| Login.IsValidEmail | src/components/LoginModal/LoginModal.js:19 | an accepted email has no white space |
| Login.EmailPattern | src/pages/Login/LoginModal.js:20 | the decision procedure accepts exactly the strings `^[^\s@]+@[^\s@]+\.[^\s@]+$` matches |
| Login.ValidEmailShape | src/components/LoginModal.js:177 | a valid email has exactly one `@` and no white space |
| Login.LoginModal.HandleLogin | src/components/LoginModal/LoginModal.js:21-49 | invalid input only warns and sends nothing; otherwise the warning clears and one request goes out; both tokens are stored and passed on only when both are present and decodable; every failure leaves storage unchanged |
| Reports.TailRun | src/components/ReportsPage.js:338 | the trailing run holds no `/` or `.`, and is maximal |
| Reports.StripExtension | src/components/ReportsPage.js:338-339 | either the name is unchanged or one `.ext` without `/` or `.` is removed |
| Reports.StripReportSuffix | src/components/ReportsPage.js:342 | a trailing `_report` is removed, otherwise nothing |
| Reports.StripReportPrefix | src/components/ReportsPage.js:343 | a leading `report_` is removed, otherwise nothing |
| Reports.FirstUuidFrom | src/components/ReportsPage.js:344-345 | finds the first 8-4-4-4-12 hex run with `-` or `_` separators |
| Reports.RemoveFirstUuid | src/pages/Report/ReportsPage.js:25 | exactly the first such run is removed |
| Reports.UnderscoresToSpaces | src/pages/Report/ReportsPage.js:26 | every underscore becomes a space and nothing else changes |
| Reports.ExtractTitleFromKey | src/components/ReportsPage.js:332-349 | the title is never empty; a missing key gives `제목 없음` |
| Reports.TitleShape | src/pages/Report/ReportsPage.js:19-28 | a title has no underscore and no white space at either end |
| Reports.IdentifierOnlyKey | src/pages/Report/ReportsPage.js:23-27 | `report_<uuid>.json` gives `분석 보고서` |
| Reports.PlainNameKey | src/pages/Report/ReportsPage.js:21-22 | `<dir>/<name>.<ext>` gives `<name>` for a plain name |
| Reports.FormatFileSize | src/pages/Report/ReportsPage.js:30-36 | `1.5MB` for a missing or zero size; `<n> B` below 1024; otherwise a power of 1024 no larger than the size |
| Reports.SizeUnits | src/components/ReportsPage.js:352-360 | KB, MB and GB are chosen by the 1024^k thresholds |
| Reports.Preview | src/components/ReportsPage.js:208-222 | no content gives no preview; parsed sections give no text, the only paragraph text, or the first two paragraph texts joined by one space; absent `sections` give nothing; unparsable content gives as much of it as fits in 150 UTF-16 units, plus `...`, at most 153 units in all |
| Reports.ParagraphTextsAppend | src/components/ReportsPage.js:212-214 | the paragraph filter and map keep the sections' order: they distribute over concatenation |
| Reports.ParagraphTextsOne | src/components/ReportsPage.js:212-214 | one section gives its text exactly when it is a paragraph; an absent content prints as the empty text |
| Reports.PreviewSkipsOtherSections | src/components/ReportsPage.js:211-217 | heading, paragraph a, heading, paragraph b gives `a b`, an absent content printing as empty |
| Reports.PreviewOfOneParagraph | src/components/ReportsPage.js:211-217 | a single paragraph gives its content alone |
| Reports.PreviewOfTwoParagraphs | src/components/ReportsPage.js:211-217 | the first two paragraph contents joined by one space |
| Reports.NoParagraphNoPreview | src/pages/Report/ReportsPage.js:56-70 | sections without paragraphs give no paragraph text |
| Reports.ToItem | src/components/ReportsPage.js:224-235 | a non-empty title; type `YouTube` by default; the date is `lastModified`, else `createdAt`, else now |
| Reports.FilterReports | src/components/ReportsPage.js:375-381 | a subset of the reports that keeps exactly those the filter admits |
| Reports.FilterKeepsAll | src/pages/Report/ReportsPage.js:98-104 | `all` or an unknown filter keeps the whole list |
| Reports.FilterAppend | src/pages/Report/ReportsPage.js:98-104 | the filter never reorders (it distributes over concatenation) |
| Reports.FilterIdempotent | src/components/ReportsPage.js:375-381 | filtering twice equals filtering once |
| Reports.InsertNewest | src/pages/Report/ReportsPage.js:83 | one insertion step: the prefix through i is newest first, the contents are a permutation, the rest is untouched |
| Reports.SortNewestFirst | src/components/ReportsPage.js:239 | afterwards the list is newest first and a permutation of what it was |
| DuplicateTitle.Squeeze | src/pages/EditorPage.js:17-18 | the result holds no white space (and no `#` when asked), and keeps every other character |
| DuplicateTitle.SqueezeAppend | src/pages/EditorPage.js:17-18 | removal distributes over concatenation, so the kept characters stay in order and keep their count |
| DuplicateTitle.SqueezeOne | src/pages/EditorPage.js:17-18 | one character is kept exactly when it is neither white space nor, when asked, `#` |
| DuplicateTitle.SqueezeKeeps | src/pages/EditorPage.js:17-18 | text with nothing to remove is unchanged |
| DuplicateTitle.AfterFirstLine | src/pages/EditorPage.js:21 | a proper suffix of the content |
| DuplicateTitle.WithoutDuplicateTitle | src/pages/EditorPage.js:14-27 | no content gives `''`; the first line goes exactly when both normalised texts are non-empty and the line contains the title; otherwise the content is returned |
| DuplicateTitle.ShownIsSuffix | src/pages/EditorPage.js:20-26 | the result is the content or the content after its first line |
| DuplicateTitle.BlankTitleKeepsContent | src/pages/EditorPage.js:26 | an empty or blank title never removes anything |
| DuplicateTitle.HeadingDropped | src/pages/EditorPage.js:20-24 | `# <title>` as the first line is dropped with its line break |
| InputBox.ExtractYoutubeId | src/components/InputBox/InputBox.js:7-11 | null iff the pattern matches nowhere; otherwise 11 `[\w-]` characters found in the URL |
| InputBox.WatchParameter | src/components/InputBox/InputBox.js:8-9 | `...v=<id>` gives `<id>` |
| InputBox.ShortLink | src/components/InputBox/InputBox.js:8-9 | `youtu?be/<id>` gives `<id>` when `?` is one unit and not a line terminator |
| InputBox.AstralSeparatorNoId | src/components/InputBox/InputBox.js:8-9 | a character outside the Basic Multilingual Plane in place of `?` gives no id |
| InputBox.Route | src/components/InputBox/InputBox.js:28-42 | a file goes to the document endpoint; an http(s) text mentioning youtube to analysis; any other text to search |
| InputBox.SchemelessLinkIsSearched | src/components/InputBox/InputBox.js:31-41 | a YouTube link without a scheme goes to search |
| InputBox.TypedLinkRoute | src/components/InputBox/InputBox.js:83-84 | typed text that mentions YouTube is analysed iff it carries a scheme |
| InputBox.ErrorText | src/components/InputBox/InputBox.js:55 | the error's message, or `에러 발생` when it has none |
| InputBox.SubmitNavigations | src/components/InputBox/InputBox.js:46-53 | the editor opens iff the answer succeeds with a final output |
| InputBox.FileRequests | src/components/InputBox/InputBox.js:77-81 | one document request per pending file, in order |
| InputBox.InputBox.Type | src/components/InputBox/InputBox.js:120 | the field holds the text; nothing else changes |
| InputBox.InputBox.HandleSubmit | src/components/InputBox/InputBox.js:22-59 | one request to the routed endpoint; the answer or its error is shown; the editor opens only on a final output |
| InputBox.InputBox.AddFiles | src/components/InputBox/InputBox.js:61-65 | the new files are appended after the existing ones |
| InputBox.InputBox.DragOver | src/components/InputBox/InputBox.js:99 | the drag flag is set; nothing else changes |
| InputBox.InputBox.DragLeave | src/components/InputBox/InputBox.js:100 | the drag flag is cleared; nothing else changes |
| InputBox.InputBox.Drop | src/components/InputBox/InputBox.js:67-74 | the dropped files are appended and the drag flag is cleared |
| InputBox.InputBox.RemoveFile | src/components/InputBox/InputBox.js:91-93 | exactly the file at the index goes, the rest keep their order; an index past the end changes nothing |
| InputBox.InputBox.SubmitPending | src/components/InputBox/InputBox.js:77-81 | each pending file is submitted in order, then the list is cleared |
| InputBox.InputBox.HandleInput | src/components/InputBox/InputBox.js:76-89 | pending files come first; otherwise YouTube text is submitted trimmed, other text navigates to search, blank text does nothing |
| AnalysisStatus.Advance | src/components/AnalysisStatus/AnalysisStatus.js:28-29 | `min(p+10, 100)`: never above 100, never below p, 10 more below 90 |
| AnalysisStatus.StepOf | src/components/AnalysisStatus/AnalysisStatus.js:37-39 | below 100 the step indexes a valid step name, and it marks the fifth of the bar progress is in |
| AnalysisStatus.StepDoneAt | src/components/AnalysisStatus/AnalysisStatus.js:113-117 | step i is marked done iff progress reached the end of its fifth; marks only accumulate |
| AnalysisStatus.ProgressAfterTicks | src/components/AnalysisStatus/AnalysisStatus.js:27-35 | after n ticks from 0 progress is 10n, capped at 100 from the tenth tick on |
| AnalysisStatus.Ticker.constructor | src/pages/Analysis/AnalysisStatus.js:151-154 | progress 0, processing, step 0, the start message, the timer running |
| AnalysisStatus.Ticker.Tick | src/pages/Analysis/AnalysisStatus.js:166-183 | progress advances and stays a multiple of 10 up to 100; at 100 status is completed, the step is past the last and the timer stops; below it the step and message follow progress; nothing sets the error status |
| AnalysisStatus.TicksUntilComplete | src/components/AnalysisStatus/AnalysisStatus.js:27-44 | from a fresh page the interval fires exactly ten times |
| Visualization.CanonicalType | src/components/SmartVisualization.js:57-58 | `reactflow` becomes `flow`, `visnetwork` becomes `network`, anything else is kept |
| Visualization.MergeWithout | src/components/SmartVisualization.js:63-64 | `{...a, ...b}` without the dropped key; `b` wins on shared keys |
| Visualization.FlattenData | src/components/SmartVisualization.js:62-65 | afterwards no object-valued `data` key remains; without one the value is unchanged |
| Visualization.FlattenConfig | src/components/SmartVisualization.js:68-71 | afterwards no truthy `config` remains; without one the value is unchanged |
| Visualization.ConfigFallback | src/components/SmartVisualization.js:74-76 | missing data becomes a shallow copy of `section.data.config` |
| Visualization.Lift | src/components/SmartVisualization.js:79-83 | a field comes from the data, else from `data.data` |
| Visualization.NormalizedSectionData | src/components/SmartVisualization.js:85-97 | every field of `section.data` is kept except the overwritten ones; `type`, `data` and the five lifted fields are set |
| Visualization.Normalize | src/components/SmartVisualization.js:53-98 | a section without data is returned unchanged; otherwise only `data` is replaced |
| Visualization.NormalizeSection | src/components/SmartVisualization.js:53-98 | the two `while` loops compute `Normalize`, and each runs at most one iteration |
| Visualization.FlatteningIdempotent | src/components/SmartVisualization.js:61-71 | flattening flattened data changes nothing |
| Visualization.ReactflowIsFlow | src/components/SmartVisualization.js:55-57 | a `reactflow` section is normalised to type `flow` |
| Visualization.NestedDataDropped | src/components/SmartVisualization.js:61-65 | as written: in `{data:{data:x, a:y}}` the inner `x` is lost |
| Visualization.FlattenAllData | src/components/SmartVisualization.js:61 | corrected: every level of nested data is merged, and no object-valued `data` remains |
| Visualization.NestedDataMerged | src/components/SmartVisualization.js:61 | corrected: `{data:{data:{x:z}, a:y}}` flattens to `{a:y, x:z}` |
| Visualization.PurposeLabel | src/components/SmartVisualization.js:351-356 | a known purpose gives its non-empty label, any other gives the purpose itself |
| Visualization.ShowPurposeLabel | src/components/SmartVisualization.js:359-360 | shown iff the label and title are non-empty and the title does not contain the label |
| Visualization.PurposeLabelHidden | src/components/SmartVisualization.js:360 | a title that starts with the label hides it |
| Visualization.NoNodesNoNetwork | src/components/SmartVisualization.js:162 | a section without nodes renders no network |
| Visualization.NetworkDataPresent | src/components/SmartVisualization.js:162 | non-empty node and edge arrays pass the guard |
| MyKnowledge.ProcessingJobs | src/pages/MyKnowledge.js:112 | exactly the jobs whose status is processing, pending or running |
| MyKnowledge.ProcessingJobsAppend | src/pages/MyKnowledge.js:112 | the filter distributes over concatenation, so the kept jobs stay in order |
| MyKnowledge.ProcessingJobsOne | src/pages/MyKnowledge.js:112 | one job is kept exactly when it is processing |
| MyKnowledge.ProgressOf | src/pages/MyKnowledge.js:121-131 | a successful poll gives progress defaulting to 0 and status to the job's; a failure gives 0 and the job's status |
| MyKnowledge.Updates | src/pages/MyKnowledge.js:115-133 | one entry per processing job id |
| MyKnowledge.UpdatesOfDistinct | src/pages/MyKnowledge.js:121-131 | with distinct ids each job's entry is its own poll result |
| MyKnowledge.PollProgress | src/pages/MyKnowledge.js:111-135 | no processing job means no request; otherwise one request per processing job, in order, and the updates of all of them |
| MyKnowledge.PollAll | src/pages/MyKnowledge.js:119-133 | the loop over the pending jobs issues one request per job, in order, and records each answer under the job's key |
| MyKnowledge.MergeProgress | src/pages/MyKnowledge.js:134 | new updates override the previous entries; the others stay |
| MyKnowledge.JustCompletedJob | src/pages/MyKnowledge.js:143-149 | the first job whose polled status is completed and which was not navigated to yet |
| MyKnowledge.MatchReport | src/pages/MyKnowledge.js:153-156 | the first report matching the job by YouTube URL or job id |
| MyKnowledge.RemoveReports | src/pages/MyKnowledge.js:192 | exactly the reports whose `job_id || id` differs from the key remain |
| MyKnowledge.RemoveAbsentKey | src/pages/MyKnowledge.js:192 | deleting a key no report carries changes nothing |
| MyKnowledge.RemoveReportsAppend | src/pages/MyKnowledge.js:192 | removal distributes over concatenation, so the remaining reports stay in order |
| MyKnowledge.RemoveReportsOne | src/pages/MyKnowledge.js:192 | one report stays exactly when its key differs |
| MyKnowledge.Dashboard.ReceiveReports | src/pages/MyKnowledge.js:72-84 | missing reports give an empty list while loading; otherwise the list, analyses and saved reports equal to its length, views three times it, and loading ends |
| MyKnowledge.Dashboard.ReceiveJobs | src/pages/MyKnowledge.js:96-98 | the jobs answered, or none on failure |
| MyKnowledge.Dashboard.Poll | src/pages/MyKnowledge.js:111-135 | the progress map becomes the previous one merged with the new updates |
| MyKnowledge.Dashboard.CheckCompletion | src/pages/MyKnowledge.js:141-162 | navigation happens only for a just-completed job with a matching report, and its id is recorded, so each job navigates at most once |
| MyKnowledge.Dashboard.DeleteReport | src/pages/MyKnowledge.js:186-196 | success removes the matching reports; failure raises the alert and keeps the list |
| MyKnowledge.NavigatedJobSkipped | src/pages/MyKnowledge.js:147 | a job already navigated to is never picked again |

## Left out

- DOM and browser glue: contentEditable refs, cursor and selection handling, `execCommand` styling (`applyStyleToSelection`), the selection toolbar, `handleKeyDown`, focus timers and event listeners.
- The network: every request is a parameter or a recorded request value. The saving, fetching and S3 fallback requests (`handleSave`, `fetchReports`, `fetchReportsFromS3`) and the summary requests of the search pages are outside the model.
- `Promise.all` in the dashboard's polling runs the per-job requests concurrently. The model polls them in order; the resulting map is the same when job ids are distinct.
- Timers: the 700 ms loading delay of the dashboard happens at once in `MyKnowledge.Dashboard.ReceiveReports`. The 5-second job and progress intervals are repeated calls of `ReceiveJobs` and `Poll`. The ticker's one-second interval is repeated calls of `Tick`.
- Floating point: the KB/MB/GB text of `formatFileSize` (`toFixed(1)` of a ratio) is left as the divisor and unit it uses. All numbers are integers; NaN appears only where the code tests for it.
- Clock and locale: `Date.now()` block ids (a parameter), `formatDate`, `timeAgo`.
- `jwtDecode` is not part of this model: whether it throws is a parameter of `HandleLogin`. The decoded user is not modelled. Of `localStorage` only the two token keys the form writes are modelled.
- `encodeURIComponent` of the search query is not modelled: navigation targets hold the raw trimmed query.
- Strings are sequences of Unicode scalar values; JavaScript's `length` is modelled as a count of UTF-16 code units (`JsText.Utf16Length`), and matching and slicing that depend on units say so. A lone surrogate cannot be represented. `\s` and `trim` use the JavaScript white-space set. Absent fields are modelled as `""`, `[]` or `None`, as each use site reads them.
- YoutubeSearch.FormatSecondsOrEmpty: a numeric string is read by `JsText.StringToNumber`, which knows only the integer forms. Text with a fraction or an exponent, `Infinity`, and `0o`/`0b` literals read as NaN here and give the empty text; JavaScript reads them as numbers.
- JsText.Utf16Prefix: when unit n falls inside a surrogate pair, `substring` keeps the lone high surrogate; the model stops before that character, so `Reports.Preview` of such a text is one unit shorter.
- The block-editing operations work on blocks with string content; a paragraph whose `content` is absent (`ComponentsEditor.ParagraphLayout` carries it as `None`) is not followed into editing, where it would print as empty or throw.
- Reports.SortNewestFirst: `Array.prototype.sort` is stable and this insertion sort is too, but stability is not stated. Dates that do not parse (NaN in the comparator) are not modelled; a date is an integer.
- Visualization.PurposeLabel: keys inherited from `Object.prototype` (such as `toString`) would hit the labels object in JavaScript; only the seven own keys are modelled.
- The editors' `handleViewResult` and other navigation-only handlers carry no decision and are not modelled.
- In the page editors, `onCompositionEnd` stores the content without running the shortcut table (`BlockEditor.UpdateBlockContent`); only the components copy runs detection first (`ComponentsEditor.CompositionEnd`).

## Findings

| source | as written | input that shows it | evidently intended | confidence | as-written member | corrected member |
|---|---|---|---|---|---|---|
| src/pages/Search/YoutubeSearchPage.js:12-27 | `parseInt` of a `PT...` string is NaN, so line 13 returns null before the ISO 8601 branch can run | `"PT1H2M3S"` gives null | the designator branch reads hours, minutes and seconds, giving `"1:02:03"` | not executed | YoutubeSearch.IsoExampleAsWritten | YoutubeSearch.IsoExampleCorrected |
| src/components/SmartVisualization.js:61-65 | the spread copies `data.data.data` into `data.data`, and the `delete` then removes it, so the loop runs once and drops the deeper level | `{data:{data:x, a:y}}` flattens to `{a:y}` for every `x`, so `{data:{data:{x:z}, a:y}}` loses `x:z` | every nested level is merged, as the comment says: `{a:y, x:z}` | not executed | Visualization.NestedDataDropped | Visualization.NestedDataMerged |
