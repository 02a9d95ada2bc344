# Career-report core of NewTest, in Dafny

NewTest is a career-recommendation service in two front ends. The Flask
application (`app.py`) collects a questionnaire, has a language model write a
personalised report, stores the submission in the `user_responses` table and
shows the report with a downloadable PDF. The Streamlit application
(`app10.py`) does the same with its own widgets and an HTML rendering of the
report. This project models the string and sequence logic inside that glue:

- `Text`: the parts of Python's `str` the code relies on. These are `split`
  and `join` on one character, `strip()` with Python's exact whitespace set
  (through the lengths of the leading and trailing whitespace), and
  `replace`.
- `Report`: `create_downloadable_pdf` in both files. The PDF object is a
  class that records the `chapter_title`/`chapter_body` calls as a sequence of
  `Heading`/`Body` blocks. app.py recognises the titles "1." to "7." and
  app10.py recognises "1." to "5.".
- `HtmlReport`: `format_ai_response` of app10.py, built as a string
  accumulator. It covers the typo correction, the fixed style block and
  title, title and content divs with their `<br>` separators, and dropped
  blank lines.
- `Multiselect`: `create_multiselect_buttons` of app10.py. The ticked
  options are toggled in the selection list, which is then stored back in the
  session state.
- `Store`: the table as a sequence of rows with increasing ids.
  - `save_response` comma-joins the two list fields. It inserts one row or,
    on any failure, logs and drops the error.
  - The `/result` lookup finds the row with the greatest id for a nickname.
- `Pipeline`: the decision rules of the two Flask routes.
  - The report text is the stripped reply or a fixed placeholder.
  - The form is collected with its defaults.
  - `/recommendation` always redirects.
  - `/result` tells apart a missing identifier, a missing row and a failed
    query.
- `Wrappers`: `Option`.

The model call, a database failure and a rendering failure are parameters:
`Completion`, `commitSucceeds`, `queryFails` and `renderFails`.

Behaviour worth knowing, as the code has it:

- A failed save does not abort the request: `save_response` catches every
  exception itself. So the `except` branch of `recommendation` is
  unreachable, and the route redirects even when nothing was stored
  (`Pipeline.Recommend`). `/result` then answers from the table as it was
  (`Pipeline.SubmitThenShow`):
  - with the previous submission under that nickname, or the not-found
    message when there is none;
  - with the no-identifier message when the nickname is empty;
  - with the query-error message when the lookup or the rendering fails.
- A submission with an empty nickname is stored, but `/result` answers that
  there is no identifier.
- A stored list cannot always be read back. The empty list and `[""]` are
  both stored as "", and a label containing a comma is indistinguishable from
  two labels (`Store.ListColumnAmbiguous`).
- The HTML page treats "6." as a section title, while the Streamlit PDF
  treats it as body text.

## Model

| member | source | states |
|---|---|---|
| `Text.LeadingSpace` | app.py:237 | Counts the whitespace that starts the string: every character before the count is whitespace, and the one at the count (if any) is not. |
| `Text.TrailingSpace` | app.py:237 | Finds where the whitespace that ends the string begins: everything from there on is whitespace, and the character just before (if any) is not. |
| `Text.Strip` | app.py:236-237 | `strip()` returns the slice of its input that starts right after the leading whitespace. Every character cut away on either side is whitespace, and the result neither starts nor ends with whitespace. The result is empty exactly when the input is all whitespace. |
| `Text.Join` | app10.py:45 | Joining no pieces gives "", and joining one piece gives that piece. Otherwise the result starts with the first piece. |
| `Text.Replace` | app10.py:153 | A replacement as long as the pattern keeps the string's length, and a string shorter than the pattern comes back unchanged. |
| `Text.Split` | app.py:114 | `split` on one character always gives at least one piece, and no piece contains the separator. |
| `Text.JoinSplit` | app10.py:178 | Joining the pieces of a split with the same separator gives back the string. |
| `Text.SplitJoin` | app10.py:45 | A non-empty list of labels without the separator, joined and split again, is the same list. |
| `Report.SectionPrefixes` | app.py:116 | The title prefixes are n two-character strings: the i-th (from 0) is the digit i+1 followed by ".". |
| `Report.SectionTitleIsDigitDot` | app.py:116 | The chain of `startswith` tests holds exactly when the line starts with a digit from 1 to n followed by ".". An empty line is never a title. |
| `Report.Classify` | app.py:116-119 | A line becomes a block holding the line unchanged. The block is a heading exactly when the line starts with a title prefix. |
| `Report.Segment` | app.py:115-119 | There is one block per line, in order, each the classification of its line. |
| `Report.ReportBlocksRoundTrip` | app.py:114-119 | Joining the block texts with newlines gives back the report text: nothing is lost or reordered. |
| `Report.ReportBlocksOfLines` | app.py:114-119 | A report written as newline-free lines gives one block per line. Each block is titled exactly when its line has a title prefix. |
| `Report.SegmentExample` | app.py:115-119 | The lines "1. Foo", "some body text", "2. Bar" become a heading, a body block and a heading. |
| `Report.Pdf.constructor` | app.py:112-113 | A new document holds no blocks. |
| `Report.Pdf.ChapterTitle` | app.py:100-103 | Appends one heading block with the title and changes nothing else. |
| `Report.Pdf.ChapterBody` | app.py:105-108 | Appends one body block with the text and changes nothing else. |
| `Report.CreateDownloadablePdf` | app.py:111-119 | The document receives exactly one block per element of `split('\n')`, in order, each classified by the given prefixes. It is used with "1."–"7." for app.py and with "1."–"5." for app10.py:74-79. |
| `HtmlReport.FixTypo` | app10.py:153 | The replacement keeps the length. At every position the result holds "근" where the text had the "귷" of a "귷거", and the text's own character everywhere else. Afterwards "귷거" occurs nowhere, and a text without it is returned unchanged. |
| `HtmlReport.LineHtmlShape` | app10.py:180-187 | A line contributes nothing exactly when it is blank and not a title. A title gives a title div that starts with an extra `<br>` unless it is line 0. Any other line gives a content div holding the line verbatim. |
| `HtmlReport.FormattedReport` | app10.py:156-189 | The page always starts with the style block, the report title and `<br>`, and always ends with `</div>`. |
| `HtmlReport.FormatAiResponse` | app10.py:151-190 | The string built by appending, line by line, equals the page of the corrected text. |
| `HtmlReport.AppendLine` | app10.py:180-187 | One loop turn appends exactly the HTML of its line. |
| `HtmlReport.LinesHtmlPrefix` | app10.py:178-187 | The HTML of the first k lines is a prefix of the HTML of all lines, so lines keep their relative order. |
| `HtmlReport.FormattedLinesHaveNoTypo` | app10.py:153-178 | No line that reaches the page contains "귷거". |
| `HtmlReport.BlankResponseGivesEmptyReport` | app10.py:185 | An empty or all-whitespace reply gives only the frame and the closing `</div>`. |
| `HtmlReport.PageAndPdfTitles` | app10.py:180 | A line is a page title exactly when it is a Streamlit PDF title or starts with "6.". Such a "6." line is body text in the PDF (app10.py:76). |
| `Multiselect.Without` | app10.py:199-202 | Takes out every occurrence of one option and leaves the membership of every other option unchanged. |
| `Multiselect.FirstIndex` | app10.py:200 | The position holds the option, and no earlier position does. |
| `Multiselect.RemoveFirst` | app10.py:200 | `list.remove` takes out the first occurrence of the option and nothing else: the entries before and after it stay in order, the list is one shorter, and the multiset loses that one element. |
| `Multiselect.Toggle` | app10.py:199-202 | A ticked option present in the list loses its first occurrence, the rest staying in order. An absent one is appended at the end, after the unchanged list. Every other option stays in or out as it was. |
| `Multiselect.ApplyChecks` | app10.py:197-202 | After the run over the options, an option that is not among them or was not ticked is selected exactly when it was selected before. |
| `Multiselect.ToggleKeepsOthers` | app10.py:199-202 | With the toggled option taken out, the list is unchanged, so the other options keep their relative order. |
| `Multiselect.ToggleFlips` | app10.py:199-202 | On a duplicate-free list, a toggle flips the option's membership, leaves every other option's membership alone and keeps the list duplicate-free. |
| `Multiselect.RemoveFirstCons` | app10.py:200 | Removing an option from a list that starts with another entry keeps that entry in front. |
| `Multiselect.RemoveFirstPrefix` | app10.py:200 | Removing an option found in the first part of a list leaves the second part as it was. |
| `Multiselect.Kept` | app10.py:197-202 | The entries a run leaves in place are exactly the selected ones that were not ticked. |
| `Multiselect.Added` | app10.py:197-202 | The entries a run adds are exactly the ticked options that were not selected. |
| `Multiselect.KeptDrop` | app10.py:199-200 | On a duplicate-free list, ticking one more option that is selected drops exactly its one entry from those kept. |
| `Multiselect.ApplyChecksOrder` | app10.py:197-202 | Starting from a duplicate-free selection and distinct options, the selection after a run is the untouched entries in their old order followed by the newly ticked options in checkbox order. This is the order in which the list is later comma-joined and stored (app10.py:45). |
| `Multiselect.ApplyChecksNext` | app10.py:198-202 | One turn of the loop (remove when present, append when absent, nothing when not ticked) extends the run by exactly that option. |
| `Multiselect.ApplyChecksMembership` | app10.py:197-202 | After the loop, an option is selected exactly when it was selected before or was ticked, but not both. The list stays duplicate-free. |
| `Multiselect.SessionState.constructor` | app10.py:195 | The session state as it stands before a run, which line 195 reads: it holds the given lists. |
| `Multiselect.CreateMultiselectButtons` | app10.py:194-205 | Starts from the stored list (or the default) and toggles every ticked option in order. The result is stored under the key, and no other key changes. |
| `Store.Chars` | app.py:68 | The characters of a string, one string each. `join` iterates over these when it is handed a string. |
| `Store.ListColumn` | app.py:68-69 | A missing list field and an empty list are both stored as "". |
| `Store.ListColumnRoundTrip` | app.py:68-69 | Labels that are non-empty and comma-free are read back from the stored string as the same list, in order. |
| `Store.ListColumnAmbiguous` | app.py:68-69 | `[]` and `[""]` are stored alike, and so are `["IT,금융"]` and `["IT", "금융"]`. |
| `Store.ListColumnExample` | app.py:68-69 | `["IT/소프트웨어", "금융"]` is stored as "IT/소프트웨어,금융" and read back as the same list. |
| `Store.CompleteFieldsInsertable` | app.py:65-71 | Keyword arguments naming exactly the columns, with a string for every column but the two lists, satisfy the insert's conditions once the lists are joined. |
| `Store.PrepareRow` | app.py:68-69 | After the rewrite, both list fields are present and hold their joined strings. Every other field is untouched. |
| `Store.ColumnValues` | app.py:71 | The row's columns are exactly the keyword names, each holding its string value. |
| `Store.NextId` | app.py:38 | A new row's id exceeds the id of every row already in a well-formed table. |
| `Store.InsertKeepsWellFormed` | app.py:38-39 | Inserting a row with a nickname under the next id keeps ids increasing and nicknames non-NULL. |
| `Store.Database.constructor` | app.py:85-86 | A new table is empty and well formed. |
| `Store.Database.SaveResponse` | app.py:65-76 | Exactly one row with the next id is added, holding the prepared columns, when every keyword is a column, every value is a string, a nickname is given and the commit succeeds. Otherwise nothing is added. The method never fails, and the table stays well formed. |
| `Store.MostRecent` | app.py:428 | Returns nothing exactly when no row has the nickname. Otherwise it returns a row of the table with that nickname whose id is at least the id of every such row. |
| `Store.MostRecentIsUnique` | app.py:428 | In a well-formed table, the matching row with the greatest id is the one the lookup returns. |
| `Store.SavedRowIsFound` | app.py:428 | The row just inserted is what a lookup by its nickname finds. |
| `Store.LaterSubmissionWins` | app.py:428 | Of two submissions under one nickname, the later one is found. |
| `Store.OtherRowsIgnored` | app.py:428 | A row with another nickname does not change what the lookup finds. |
| `Pipeline.AiText` | app.py:236-244 | The report text is never empty and never has whitespace at either end. It is the error placeholder when the call or `.strip()` raised, the empty-reply placeholder when there are no choices or the first is blank, and otherwise the stripped first choice. |
| `Pipeline.AiTextIsStripped` | app.py:237 | Stripping the report text again changes nothing. |
| `Pipeline.FormGet` | app.py:304 | A field that was not posted reads as "". Otherwise it reads as its first posted value. |
| `Pipeline.FormGetList` | app.py:312 | A list field that was not posted reads as the empty list. Otherwise it reads as all its posted values. |
| `Pipeline.CollectForm` | app.py:303-323 | There is one entry per column, and every entry but the two lists is a string. Every missing scalar field is "", every missing list field is `[]`, and the report starts out as "". |
| `Pipeline.SubmittedColumns` | app.py:371-376 | The stored row sets every column. The nickname is the posted one (even ""), the lists are comma-joined and the report is the model's text. |
| `Pipeline.SubmissionIsInsertable` | app.py:303-323 | A collected submission always satisfies the insert's conditions, so only the database itself can refuse it. |
| `Pipeline.CollectedFormIsInsertable` | app.py:303-323 | The same holds whatever the report text is: once the lists are joined, the collected form has exactly the table's columns and satisfies the insert's conditions. |
| `Pipeline.PreparedValues` | app.py:303-323 | Once the lists are joined, every scalar column holds the posted value (the nickname included), the lists hold their comma-joined values and the report column holds the report. |
| `Pipeline.Session.constructor` | app.py:345 | The session before the first request, which line 345 first writes: it holds neither a nickname nor a report. |
| `Pipeline.Recommend` | app.py:345-382 | The nickname and report are put in the session, and the submission is stored exactly when the database accepts it. The answer is always the redirect, so the save-error message is never returned. |
| `Pipeline.ResultFor` | app.py:421-444 | The no-identifier message is returned exactly when the nickname is missing or empty. The not-found message is returned exactly when the query succeeds and no row matches. The query-error message is returned exactly when there is an identifier and either the query fails, or a row matches and rendering fails or the row has no ai_response. When the identifier is there, nothing fails and the matching row has an ai_response, the answer is a report page. It shows the ai_response of the matching row with the greatest id, together with that text's PDF blocks. |
| `Pipeline.ShowResult` | app.py:421-444 | The route's answer, computed from the session and the table, is the one `ResultFor` describes. |
| `Pipeline.SubmissionIsShown` | app.py:375-435 | After a stored submission with a non-empty nickname, `/result` shows that submission's report text and its PDF blocks. |
| `Pipeline.EmptyNicknameIsStoredButNotShown` | app.py:422-425 | A submission with an empty nickname can be stored, yet `/result` answers that there is no identifier. |
| `Pipeline.SubmitThenShow` | app.py:375-378 | After a submission and a visit to `/result`, an empty nickname gives the no-identifier message. A stored submission is shown. A write the database refused leaves `/result` answering from the table as it was before. |

## Left out

- Not modelled: PDF rendering (fonts, the page header, cell layout), writing
  `report.pdf` and its base64 encoding (app.py:90-108, 121-126; app10.py:50-68,
  81-87). These are library calls and file I/O. The document is modelled only
  by the blocks it receives.
- Not modelled: the chat-completion call, its configuration and the prompt
  text (app.py:132-225, 349-368). These are network calls and free text. The
  call's outcome is the `Completion` parameter.
- app10.py's `generate_ai_response` returns the raw content or `str(e)` and
  has no rule beyond that, so it is not modelled.
- Not modelled: Flask and Streamlit setup, templates, logging, the GET page
  of `/recommendation` and the Streamlit page layout and widgets. These are
  HTTP and UI plumbing. A checkbox's state is the `checked` parameter of
  `Multiselect.CreateMultiselectButtons`.
- Not modelled: database connections, DDL and app10.py's sqlite3 insert
  (app10.py:10-47). Only the comma join on line 45 is modelled, by
  `Text.SplitJoin` and `Store.ListColumn`.
- Store.Database.SaveResponse: the database's own failures are abstracted
  into `commitSucceeds`. This includes a value longer than its `String(255)`
  column, on databases that enforce the length.
- Store.Database.SaveResponse: an `id` keyword argument is not modelled; no
  caller passes one.
- Store.NextId: ids follow SQLite's rule, one more than the greatest id.
  Other databases' sequences are not modelled.
- Store.MostRecent: nicknames are compared exactly. A database collation
  that ignores case or trailing spaces is not modelled.
- Pipeline.ResultFor: every exception raised while rendering the result
  page (the PDF writer, the file, the template) is one parameter,
  `renderFails`.
- Not modelled: the aliasing of the shared mutable `default=[]` argument and
  of the list held in the session state (app10.py:194-204). Python mutates
  that list in place. `Multiselect.CreateMultiselectButtons` works on a value,
  so a later call that falls back to the default does not see earlier
  toggles.
- Not modelled: HTML escaping. There is none in the source either: lines are
  inserted verbatim, and `HtmlReport.LineHtmlShape` states it.
- Not modelled: the commented-out earlier versions of the routes and of the
  response extraction.
