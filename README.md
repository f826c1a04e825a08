# church-grader, modelled in Dafny

church-grader grades the chatbots of churches. Each church's pastors.ai chatbot is asked "What time is service?". A language model answers the same question from the text of the church's website, and a second model grades the chatbot's answer against that ground truth.

This project models the logic of the system and proves properties of it. Browser automation, HTTP, language models and rendering are left out.

The back end has three parts:

- **Church-list cleaning (`backend/clean_data.py`).** Modelled in `clean_data.dfy`. Tables are sequences of rows whose cells are `Option<string>`.
  - The pipeline stages are written down as the source runs them.
  - They are proved equal to one order-preserving selection of input rows followed by one per-row transformation.
  - From that follow:
    - the shape of every output row;
    - de-duplication keeps the first row for each stripped chatbot value;
    - the `x` / `@x` consequence of de-duplicating before the `@` prefix.
- **Batch grader (`backend/main.py`).** Modelled in `batch.dfy`.
  - `clean_text`'s whitespace collapse and truncation.
  - Chatbot and website URL normalisation.
  - The `NO_WEBSITE` ground-truth marker and the N/A grading shortcut.
  - The fallbacks for the grading model's reply: JSON, then the `{...}` span, then the "Malformed" record.
  - The `run_batch` loop, as a method proved against the per-row function `ProcessRow`.
  - Everything outside the process is a `World` value of functions: the chatbot, the web, the two models and `json.loads`. The same question always gets the same reply.
- **Grading service (`backend/api.py`).** Modelled in `api.dfy`.
  - Church derivation from a handle.
  - Request validation.
  - The job table, as a class `JobStore` whose `jobs` map is updated in place.
  - The running, complete and error records of the background task.
  - The conversion of report rows into results.

The front end has five parts:

- **Results table and summary header.** Modelled in `results_table.dfy` and `summary_header.dfy`.
  - The results filter, the sorted distinct question list, the church-name lookup and the 30-character question label.
  - Per-grade counts and `Math.round` percentages, in integer arithmetic.
  - The progress-card condition `ShowsProgress`.
- **Church selector.** Modelled in `church_selector.dfy`: search, select-all and check/uncheck.
- **Question editor.** Modelled in `question_input.dfy`.
  - Pure transition functions over the list and the input box.
  - A class `QuestionBox` whose methods are proved to perform them.
- **Dashboard page (`src/app/page.tsx`).** Modelled in `page.dfy` as a class `Home`.
  - It keeps the page state and a `polling` flag that stands for the interval.
  - Its `StartEvaluation` and `Tick` methods take the network replies as parameters.
- **Shared types (`src/lib/types.ts`).** Mirrored in `types.dfy`.

`wrappers.dfy`, `seqs.dfy` and `strings.dfy` hold the shared vocabulary:

- `Option` and `Result`;
- order-preserving filter, map and de-duplication, with their subsequence lemmas;
- ASCII models of JavaScript `trim`/`toLowerCase`, Python `strip`/`split`/`title`, and lexicographic sort.

Behaviour that the code has and a reader may not expect is stated and proved as written:

- select-all compares lengths, not sets (`ChurchSelector.LabelMatchesAction`);
- a `NO_WEBSITE` row reaches the answering model as `https://NO_WEBSITE`, so the N/A shortcut is never taken on the batch path (`Batch.NoWebsiteRowIsFetched`);
- `x` and `@x` both survive cleaning as `@x` (`CleanData.AtVariantsBothSurvive`);
- every result's question is the fixed one, whatever was requested (`Api.ConvertResults`).

## Model

| member | source | states |
|---|---|---|
| ResultsTable.FilterResultsIsSubsequence | church-grader/src/components/ResultsTable.tsx:36-47 | the filtered results are an order-preserving subsequence of the results, holding every copy of a kept result and none of a dropped one |
| ResultsTable.FilterResultsMembers | church-grader/src/components/ResultsTable.tsx:38-45 | a result is shown iff it is in the list, has the chosen grade (unless "ALL"), has the chosen question (unless "ALL") and contains the lower-cased term in one of its three texts |
| ResultsTable.FilterResultsIdentity | church-grader/src/components/ResultsTable.tsx:38-40 | grade "ALL", question "ALL" and the empty search show every result, in order |
| ResultsTable.FilterResultsIdempotent | church-grader/src/components/ResultsTable.tsx:36-47 | filtering the filtered list with the same settings changes nothing |
| ResultsTable.UniqueQuestionsSpec | church-grader/src/components/ResultsTable.tsx:63-66 | the question list is strictly ascending and holds exactly the questions that occur in the results |
| ResultsTable.ChurchNameFirstMatch | church-grader/src/components/ResultsTable.tsx:49-52 | the name shown is that of the first church with the id, or the id when that name is empty |
| ResultsTable.ChurchNameUnknown | church-grader/src/components/ResultsTable.tsx:49-52 | an id no church has is shown as itself |
| ResultsTable.QuestionLabel | church-grader/src/components/ResultsTable.tsx:103 | a question of at most 30 characters is its own label; a longer one is shown as its first 30 characters followed by "..."; the label is at most 33 long |
| SummaryHeader.GradePercentage | church-grader/src/components/SummaryHeader.tsx:18-21 | the percentage is at most 100 |
| SummaryHeader.GradePercentageSpec | church-grader/src/components/SummaryHeader.tsx:18-21 | 0 without a job or results; otherwise the integer within half a unit of 100·count/total |
| SummaryHeader.RoundedPercentAtMost100 | church-grader/src/components/SummaryHeader.tsx:20 | a count no larger than the total rounds to at most 100 |
| SummaryHeader.RoundedPercentNearest | church-grader/src/components/SummaryHeader.tsx:20 | the integer formula is round-half-up of 100·count/total |
| SummaryHeader.RoundedPercentUnique | church-grader/src/components/SummaryHeader.tsx:20 | any integer within half a unit of 100·count/total (halves up) is the computed percentage |
| SummaryHeader.RoundedPercentMonotone | church-grader/src/components/SummaryHeader.tsx:20 | for a fixed total a larger count never gives a smaller percentage |
| SummaryHeader.SumCountsAll | church-grader/src/components/SummaryHeader.tsx:13-23 | the six grade counts plus the off-scale results add up to the number of results |
| SummaryHeader.GradeCountsSum | church-grader/src/components/SummaryHeader.tsx:13-23 | the six counts add up to the number of results iff every result has one of the six grades |
| SummaryHeader.NoJobNoCounts | church-grader/src/components/SummaryHeader.tsx:13-21 | without a job every count and percentage is 0 |
| ChurchSelector.EmptyTermKeepsAll | church-grader/src/components/ChurchSelector.tsx:22-27 | the empty search term lists every church, in order |
| ChurchSelector.FilteredChurchesSpec | church-grader/src/components/ChurchSelector.tsx:23-26 | listed churches keep their order, a church is listed iff its name or website contains the term, ignoring case, and a listed church keeps all its copies |
| ChurchSelector.SelectAllSpec | church-grader/src/components/ChurchSelector.tsx:29-35 | equal lengths clear the selection; otherwise the selection becomes the listed ids, in order |
| ChurchSelector.SelectAllThenDeselectLabel | church-grader/src/components/ChurchSelector.tsx:29-35 | after select-all the button reads "Deselect All" |
| ChurchSelector.SelectAllTwice | church-grader/src/components/ChurchSelector.tsx:29-35 | pressing the button twice from a partial selection clears it |
| ChurchSelector.LabelMatchesAction | church-grader/src/components/ChurchSelector.tsx:65 | the caption reads "Deselect All" iff the button clears the selection, except for a non-empty selection over an empty list |
| ChurchSelector.CheckSpec | church-grader/src/components/ChurchSelector.tsx:38-39 | checking appends the id and keeps the earlier selection |
| ChurchSelector.UncheckSpec | church-grader/src/components/ChurchSelector.tsx:40-41 | unchecking removes every copy of the id and keeps every copy of each other id, in order |
| ChurchSelector.CheckThenUncheck | church-grader/src/components/ChurchSelector.tsx:37-43 | checking then unchecking an unselected id restores the selection |
| QuestionInput.KeyDownSpec | church-grader/src/components/QuestionInput.tsx:17-26 | Enter or ',' with a new non-empty trimmed input appends it and clears the box; any other key or input changes nothing |
| QuestionInput.InputChangeSpec | church-grader/src/components/QuestionInput.tsx:32-45 | a value with a comma adds its trimmed first part when new and non-empty and leaves the trimmed rest in the box; otherwise the box holds the value typed |
| QuestionInput.RemoveQuestionSpec | church-grader/src/components/QuestionInput.tsx:28-30 | removing deletes every copy and keeps every copy of each other question, in order |
| QuestionInput.TrimIdempotent | church-grader/src/components/QuestionInput.tsx:20 | trimming a trimmed text changes nothing |
| QuestionInput.AppendClean | church-grader/src/components/QuestionInput.tsx:21-22 | appending an addable trimmed question keeps the list free of blanks and duplicates |
| QuestionInput.KeyDownKeepsClean | church-grader/src/components/QuestionInput.tsx:17-26 | a key press never introduces a blank or a duplicate |
| QuestionInput.InputChangeKeepsClean | church-grader/src/components/QuestionInput.tsx:32-45 | typing never introduces a blank or a duplicate |
| QuestionInput.RemoveKeepsClean | church-grader/src/components/QuestionInput.tsx:28-30 | removing keeps a clean list clean |
| QuestionInput.AddThenRemove | church-grader/src/components/QuestionInput.tsx:22-29 | adding a new question then removing it restores the list |
| QuestionInput.QuestionBox.constructor | church-grader/src/components/QuestionInput.tsx:14-15 | the box starts empty over the given list |
| QuestionInput.QuestionBox.HandleKeyDown | church-grader/src/components/QuestionInput.tsx:17-26 | the new list and box are `KeyDown` of the old ones; a clean list stays clean |
| QuestionInput.QuestionBox.HandleInputChange | church-grader/src/components/QuestionInput.tsx:32-45 | the new list and box are `InputChange` of the old ones; a clean list stays clean |
| QuestionInput.QuestionBox.HandleRemoveQuestion | church-grader/src/components/QuestionInput.tsx:28-30 | the list loses the question, the box is unchanged, a clean list stays clean |
| Page.InitialJob | church-grader/src/app/page.tsx:78-83 | the job shown after a start is running, at progress 0, with no results and no error |
| Page.Home.constructor | church-grader/src/app/page.tsx:19-26 | no churches, no selection, the default question, no job, churches loading, no interval |
| Page.Home.VisibleResults | church-grader/src/app/page.tsx:94 | the job's results, or none without a job |
| Page.Home.ChurchesLoaded | church-grader/src/app/page.tsx:29-37 | a reply replaces the church list, a failure keeps it; loading ends; nothing else changes |
| Page.Home.SetSelected | church-grader/src/app/page.tsx:20 | the selection becomes the given ids; nothing else changes |
| Page.Home.SetQuestions | church-grader/src/app/page.tsx:21 | the question list becomes the given list; nothing else changes |
| Page.Home.Rerun | church-grader/src/app/page.tsx:40-63 | when the job's status or id changed, an interval runs iff the job is running with an id; otherwise the interval is kept |
| Page.Home.StartEvaluation | church-grader/src/app/page.tsx:65-92 | an empty selection, then an empty question list, is rejected without any change; an enabled button always sends the request; success replaces the job by the initial job, failure keeps it; loading is off afterwards |
| Page.Home.Tick | church-grader/src/app/page.tsx:41-58 | without an interval nothing is fetched; a snapshot replaces the whole job and polling goes on only while it runs; a failed fetch stops polling and leaves the job running |
| Page.Home.StartDisabled | church-grader/src/app/page.tsx:160 | an enabled start button has a selected church and a question |
| Page.PollingShowsProgress | church-grader/src/components/SummaryHeader.tsx:28 | the progress card is shown whenever an interval polls, and for a freshly started job |
| Page.RunToCompletion | church-grader/src/app/page.tsx:40-63 | start, a running and a complete snapshot: two fetches, then none; the complete job's results are shown |
| Page.RunToError | church-grader/src/app/page.tsx:40-63 | an error snapshot ends polling and keeps its message |
| Page.FetchFailure | church-grader/src/app/page.tsx:55-58 | after a failed fetch the job stays running at its last progress and nothing more is fetched |
| CleanData.ColumnIndex | church-grader/backend/clean_data.py:15-31 | a column is found iff exactly one column has the name; otherwise a missing- or ambiguous-column error |
| CleanData.MarkMissing | church-grader/backend/clean_data.py:34 | '' and 'nan' become NO_WEBSITE; other sites are unchanged |
| CleanData.Handle | church-grader/backend/clean_data.py:40 | a non-empty handle gets exactly one leading '@' followed by the text without its leading '@'s; '' stays '' |
| CleanData.DropBothRedundant | church-grader/backend/clean_data.py:18-21 | dropping rows missing both cells, then rows missing the chatbot, drops what the second step drops alone |
| CleanData.StripThenDropBlank | church-grader/backend/clean_data.py:24-28 | stripping the chatbot and dropping '' and 'nan' keeps the rows whose stripped chatbot is neither |
| CleanData.NamedRows | church-grader/backend/clean_data.py:18-28 | the first five stages keep exactly the admissible rows, with the chatbot stripped |
| CleanData.CleanRowsSelectThenTransform | church-grader/backend/clean_data.py:18-53 | the whole pipeline is the selection of input rows followed by a per-row transformation |
| CleanData.SelectedIsSubsequence | church-grader/backend/clean_data.py:18-53 | the rows that reach the output are input rows, in input order |
| CleanData.SelectedRows | church-grader/backend/clean_data.py:18-53 | every selected row has a chatbot cell whose stripped text is neither '' nor 'nan', and whose '@' handle is longer than one character |
| CleanData.SelectedDistinct | church-grader/backend/clean_data.py:37 | no two selected rows share a stripped chatbot value |
| CleanData.SelectedKeepsFirst | church-grader/backend/clean_data.py:37 | the first admissible row for each stripped chatbot value reaches the output when its handle is long enough |
| CleanData.CleanWebsiteSpec | church-grader/backend/clean_data.py:43-48 | the marker and URLs with a protocol are unchanged; any other URL gets the "https://" prefix; idempotent |
| CleanData.TransformShape | church-grader/backend/clean_data.py:40-53 | a selected row comes out with an '@' handle of length above 1 and a marked or protocol-prefixed website |
| CleanData.CleanRowsShape | church-grader/backend/clean_data.py:40-53 | every output row has that shape |
| CleanData.SelectedWidth | church-grader/backend/clean_data.py:18-53 | output rows are as wide as the input rows |
| CleanData.AtVariantsBothSurvive | church-grader/backend/clean_data.py:37-40 | rows `x` and `@x` both come out, both with handle `@x` |
| CleanData.CleanChurchDataFails | church-grader/backend/clean_data.py:15-21 | cleaning fails iff, after the column names are stripped, "Chatbot" or "Website" is not exactly one column |
| CleanData.CleanChurchDataError | church-grader/backend/clean_data.py:18-31 | the error names every missing column, Chatbot before Website (line 18); only when both exist is a doubled column reported, Chatbot (line 24) before Website (line 31) |
| CleanData.MissingBeforeAmbiguous | church-grader/backend/clean_data.py:15-24 | columns "Chatbot" and " Chatbot" without "Website" fail on the missing Website, not on the doubled Chatbot |
| CleanData.CleanChurchDataSpec | church-grader/backend/clean_data.py:15-53 | on success the column names are stripped, the table stays rectangular, the rows are the selected rows transformed, and every row has the output shape |
| Batch.PyPrefix | church-grader/backend/main.py:23 | `s[:n]` is a prefix of `s` of length n clipped to the string, counting from the end for a negative n |
| Batch.JoinWordsCollapsed | church-grader/backend/main.py:22 | words joined by single spaces have no whitespace run and no surrounding space |
| Batch.CleanTextSpec | church-grader/backend/main.py:22-23 | the text is a prefix of the space-joined words, of exactly `max_chars` characters when there are that many, with no whitespace run; uncut, it has the input's words |
| Batch.ChatbotUrlSpec | church-grader/backend/main.py:146-149 | an '@' handle becomes "https://pastors.ai/" followed by the handle, whose last segment is the handle; any other value is used verbatim; converting twice is converting once |
| Batch.SiteUrlSpec | church-grader/backend/main.py:152-153 | a site with a protocol is unchanged, any other gets the "https://" prefix; idempotent; the marker becomes "https://NO_WEBSITE" |
| Batch.FetchSiteText | church-grader/backend/main.py:25-31 | the cleaned page text, or the bracketed error message |
| Batch.LlmAnswerFromSite | church-grader/backend/main.py:78-95 | any site but the marker is fetched and the answering model's stripped reply, or its error, is the ground truth |
| Batch.LlmAnswerShortcut | church-grader/backend/main.py:79-80 | the NO_WEBSITE marker gives the fixed no-website answer whatever the outside world would say |
| Batch.BraceSpanExists | church-grader/backend/main.py:135 | a `{...}` span exists iff some '{' comes before some '}' |
| Batch.BraceSpanShape | church-grader/backend/main.py:135 | the span runs from the first '{' to the last '}' |
| Batch.ReadGradeSpec | church-grader/backend/main.py:131-136 | valid JSON is taken whole; with no brace span the record is D / false / "Malformed grader output."; it raises iff neither the reply nor its span parses |
| Batch.LlmGradeShortcut | church-grader/backend/main.py:97-104 | the no-website ground truth is graded N/A / false / fixed justification whatever the grading model would say; a grading-model error otherwise propagates |
| Batch.ProcessRowSpec | church-grader/backend/main.py:141-172 | a report row holds the normalised URLs, the chatbot's answer, the stripped model answer and the grading model's grade, soft_match and justification; with both cells present the row raises the answering model's error, else the grading model's error, else the `.get` error on a non-object grade, and otherwise is reported; a missing cell raises |
| Batch.ChatFailureDoesNotAbort | church-grader/backend/main.py:155-160 | a chatbot timeout or exception is recorded as a bracketed answer and the row is graded as usual |
| Batch.NoWebsiteRowIsFetched | church-grader/backend/main.py:152-153 | a NO_WEBSITE row is fetched and answered as "https://NO_WEBSITE", not given the N/A ground truth |
| Batch.RunRows | church-grader/backend/main.py:140-172 | one report row per input row in input order, or the exception of the first row that raises |
| Batch.RunBatch | church-grader/backend/main.py:138-179 | the report is `ProcessRow` of every row, in order, unless a row raises; then it is the first row's exception |
| Api.ChurchOfSpec | church-grader/backend/api.py:71-78 | id is the handle, the website is kept, the chatbot URL is "https://pastors.ai/" followed by the handle; the name is the handle without '@', with '_' as a space, title-cased position by position, so it holds no '@' or '_' |
| Api.TitleKeepsOut | church-grader/backend/api.py:72 | title-casing adds no character that is not a letter |
| Api.NameIsTitled | church-grader/backend/api.py:72 | each character of the name is the handle's character (without '@', '_' as a space), upper-cased when it is a letter starting a run of letters and lower-cased when it continues one |
| Api.LoadChurches | church-grader/backend/api.py:61-84 | one church per row, in table order; an unreadable table or a missing cell gives the empty list |
| Api.Validate | church-grader/backend/api.py:165-169 | a request passes iff it names churches and questions |
| Api.SelectRowsSpec | church-grader/backend/api.py:92 | the evaluated rows keep table order and are exactly the rows whose handle was requested, every copy of such a row included |
| Api.ConvertResults | church-grader/backend/api.py:110-124 | one result per report row, each built from its row; every church id is free of '/' and every question is "What time is service?" |
| Strings.LastSegmentIsLastPart | church-grader/backend/api.py:113 | the segment taken as the church id is the last part of the split on '/' |
| Api.ResultChurchId | church-grader/backend/api.py:77-117 | a row for an '@' handle without '/' is reported under that church's id |
| Api.JobStore.constructor | church-grader/backend/api.py:41 | no jobs and nothing scheduled |
| Api.JobStore.GetResults | church-grader/backend/api.py:184-190 | the stored record unchanged, or 404 "Job not found" iff the id is unknown |
| Api.JobStore.StartEvaluation | church-grader/backend/api.py:162-182 | no churches gives 400 "No churches selected" before no questions gives 400 "No questions provided"; only an accepted request schedules a task; the job table is untouched |
| Api.JobStore.RunEvaluationBackground | church-grader/backend/api.py:86-151 | only this job's record changes; an unreadable table records an error; otherwise running at 0 then complete at 100 with one result per selected row iff no row raises, else an error with the first exception |

## Left out

- Network, browser and models: `ask_chatbot`'s Playwright session, `requests.get`, BeautifulSoup's text extraction and the OpenAI calls are function fields of `Batch.World`; only `clean_text`'s collapse and truncation after extraction are modelled. A model that answers differently on each call is not captured.
- `json.loads` and the regular-expression engine: parsing is an oracle `World.parse`; the `{.*}` span is modelled directly.
- The messages of the exceptions a batch raises (`.strip()` on a missing cell, `.get` on a non-object, `str(e)` of a network error) are placeholder constants.
- Pandas: `read_csv`'s missing-value detection and type inference, `to_csv`, and the temporary CSV written by the background task and read back by `run_batch` (assumed to be the identity on the selected rows). A non-string cell is modelled only as missing.
- Files: the cleaned table is an `Option` parameter (`None` when it cannot be read); report files, temp-file removal, `print`, `tqdm` and `time.sleep` are not modelled.
- FastAPI routing, CORS, background-task scheduling and the health endpoint; `uuid4` and `datetime.now` are parameters (the fresh job id, a timestamp per result).
- Api.JobStore.RunEvaluationBackground: the race in which `get_results` answers 404 before the first record is written is concurrency and is not modelled; the unused `questions` argument is kept as in the source.
- Timers and React scheduling: `setInterval` is the `polling` flag, each tick is a call of `Tick`, and overlapping requests of one interval are not modelled; the in-flight `isLoading` state of a start is set and cleared within `StartEvaluation`.
- Page.Home.StartEvaluation: the start request's reply is a parameter, so the state while the request is outstanding is not observable.
- Toasts, console output, all rendering, `GradeBadge.tsx`, the clipboard copy in the results table and `getDomainFromUrl` (it relies on the browser's URL parser).
- SummaryHeader.GradePercentage: `Math.round` over a floating-point quotient is modelled exactly; floating-point error at exact halves is not.
- Strings are ASCII: `toLowerCase`, `trim`, `str.strip`, `str.split`, `str.title` and the default `sort` follow their ASCII behaviour, and the order is code-unit lexicographic.
- `src/lib/api.ts` is network access and is not part of this model; its results arrive as method parameters of `Page.Home`.
