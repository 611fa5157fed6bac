# Teacher dashboard front end: row derivations and save decisions

`app.js` is the browser front end of a school "teacher management"
application. Almost all of it fetches JSON from a REST backend and paints
rows into the DOM. This project models, in Dafny, the deterministic rules
buried in those view functions, and proves what they guarantee:

- **Attendance rate.** A student's rate on the students page is
  `Math.round(present / total * 100)` over their records, or 0 when they
  have none. The model computes it on exact rationals. It is always in
  0..100 (`Attendance`).
- **Attendance form.** The form is prefilled from the day's records: one
  row per roster student, taken from the student's first record or
  defaulting to "present" with no reason. "Save attendance" sends one
  entry per status row, in row order. Reopening the form after a save
  shows exactly what was saved, as long as no reason holds a quote, an
  ampersand or a line break (`Attendance`).
- **Gradebook.** The grade lookup keeps one grade per student, the later
  grade winning. The grade form shows the looked-up marks, and the
  feedback as its input reads it back.
  "Save grades" sends one request per row whose marks `parseInt` reads as
  a number ≥ 0, in row order. A row whose looked-up grade has an id
  becomes a `PUT /grades/{id}`; any other saved row becomes a
  `POST /grades` (`Gradebook`).
- **Values written into markup** (`Markup`). The page writes a stored
  reason or feedback into `value="…"` without escaping it. The model
  captures what the input then shows: the text up to the first `"`, with
  `&amp;` and `&quot;` decoded and line breaks stripped. It also models
  the escaped writing that would show any text unchanged.
- **JavaScript text primitives** (`JsText`):
  - `parseInt` with no radix: whitespace, sign, hexadecimal prefix and
    longest digit run.
  - `String(n)`, `trim`, `split` and `join`.
- **The `state` cache.** A class whose fields every loader overwrites
  wholesale. It also holds the dashboard figures and the classes and
  students tables derived from it, and the `saveGrades` loop (`AppState`).
- **The "connect student" modal.** A class holding the two page-level
  variables, the listed rows and their highlight, with the open, click,
  cancel and submit handlers (`ConnectFlow`).
- **The analytics page.** Which class the page loads, and the geometry of
  its bar chart in exact rationals: canvas and bar widths, gridlines and
  their labels, and bar heights and tops (`Chart`).
- **Smaller rules** (`Forms`):
  - the page title lookup;
  - the required-field checks of the account-request, new-assignment and
    meeting forms;
  - the subject-list parsing;
  - the `totalMarks` default.

Backend answers are parameters of the model. `None` stands for the `null`
a failed call yields, and every loader turns it into an empty list, as
`|| []` does. The date of "today" is a parameter too.

Details of `app.js` that shape the model:

- **Attendance rate.** The students table shows a rounded percentage,
  `Math.round(present / total * 100)` (app.js:434-437).
- **Gridlines.** The chart draws six gridlines, `i = 0..5`, labelled 100
  down to 0 (app.js:852-860).
- **Marks.** A mark is whatever `parseInt` reads from the marks input, so
  "3.7" is saved as 3 (app.js:749-754).
- **Unescaped values.** A reason or feedback holding a quote is shown,
  and saved again, cut at the quote (app.js:534, app.js:731; see
  Findings).
- **Analytics class.** The chart is always drawn for the first class
  (app.js:788-802; see Findings).

## Model

| member | source | states |
|---|---|---|
| Base.MathRound | app.js:436 | `Math.round` gives the integer r with r ≤ x + 0.5 < r + 1 (halves round up) |
| JsText.TrimFixesTrimmed | app.js:245 | `trim` leaves a string unchanged exactly when it has no leading or trailing whitespace |
| JsText.Split | app.js:245 | `split` on one character gives at least one piece, and no piece contains the separator |
| JsText.JoinSplit | app.js:245 | joining the pieces of `split` with the same separator rebuilds the string |
| JsText.SplitJoin | app.js:245 | splitting a join of separator-free pieces gives back those pieces |
| JsText.DigitRun | app.js:749 | the digit run `parseInt` reads is the longest prefix of digits of the radix |
| JsText.NatToDecimal | app.js:724-730 | `String(n)` of a natural number is a non-empty run of decimal digits with no leading zero |
| JsText.NumeralOfDecimal | app.js:749 | the decimal digits of n denote n |
| JsText.ParseIntOfDecimal | app.js:749 | `parseInt` of an integer's rendering followed by a non-digit reads that integer ("3.7" gives 3, "-5" gives -5) |
| JsText.ParseIntRendering | app.js:724-749 | `parseInt` reads back any rendered integer, so a marks input prefilled from a grade re-reads those marks |
| JsText.ParseIntSkipsWhitespace | app.js:749 | leading whitespace never changes what `parseInt` reads |
| JsText.ParseIntNaN | app.js:749-754 | `parseInt` of an empty or blank input is NaN, so such a row is not saved |
| JsText.ParseIntNaNOnLetter | app.js:749-754 | `parseInt` is NaN when the first non-blank character is neither a sign nor a digit |
| Markup.BeforeQuote | app.js:534 | a double-quoted attribute value ends at the first `"` of the text written into it |
| Markup.DecodeRefs | app.js:534 | text without an ampersand is kept as is by reference decoding |
| Markup.StripLineBreaks | app.js:534 | a text input's value holds no line break, and text without one is kept |
| Markup.AttrValue | app.js:534 | `value="${s}"` shows `s` itself when `s` holds no quote, ampersand, line break or NUL |
| Markup.Shown | app.js:534 | a text shown raw or escaped reads back unchanged under the condition of that way of writing |
| Markup.AttrValueCut | app.js:731 | written raw, a text `a"b` shows as `a` |
| Markup.EscapeAttr | app.js:731 | escaped text holds no quote |
| Markup.EscapedValueReadsBack | app.js:731 | escaped, every text a text input can hold reads back unchanged |
| Markup.DecodeEscaped | app.js:731 | decoding `&amp;` and `&quot;` undoes the escaping |
| Attendance.StatusName | app.js:528-531 | each of the four statuses has an option value, which reads back as that status |
| Attendance.StatusNameOf | app.js:549 | an option value of the status select names the status it stands for |
| Attendance.RecordsOf | app.js:434 | a student's records are every record carrying their id, duplicates included, in order: the j-th is the record at the j-th position carrying the id |
| Attendance.PresentCount | app.js:436 | the present count is the number of positions holding a "present" record; it equals the record count exactly when every record is "present" |
| Attendance.AttendanceRate | app.js:434-437 | the rate is in 0..100 and is 0 without records; otherwise it is 100·present/total rounded to the nearest integer, halves up |
| Attendance.AttendanceRateIsRoundedPercentage | app.js:434-437 | the rate equals `Math.round` of the exact percentage 100·present/total |
| Attendance.RoundedPercent | app.js:436 | the integer formula rounds 100·present/total to the nearest integer, halves up, and is at most 100 when present ≤ total |
| Attendance.RoundedPercentIsMathRound | app.js:436 | the integer formula equals `Math.round` of the exact percentage |
| Attendance.FirstRecordFor | app.js:519 | `find` picks the first record carrying the student's id |
| Attendance.Prefill | app.js:518-535 | one row per roster student, in order; status and reason come from the student's first record, the reason as `value="…"` reads it back (the reason itself when it holds no quote, ampersand or line break); without a record the row shows "present" and no reason |
| Attendance.SaveAttendance | app.js:540-556 | no class gives the "Please select a class" error; otherwise one entry per status row, in row order, with the row's status and the reason input `querySelector` finds for its student |
| Attendance.SavedBatchIsForm | app.js:547-551 | when every student has one row, each entry is exactly its row's student, status and reason |
| Attendance.StoredRecords | app.js:553-556 | the records the server stores for a batch: one per entry, in order, each with the batch's date and the entry's student, status and reason |
| Attendance.ReopenAfterSave | app.js:518-556 | as written, reopening the form from the records just saved shows exactly the saved form when no reason holds a quote, ampersand or line break |
| Attendance.QuotedReasonCut | app.js:534 | as written, a saved reason `a"b` comes back as `a` |
| Attendance.ReopenEscapedAfterSave | app.js:534 | with the reason escaped, reopening after a save shows exactly the saved form for every reason a text input can hold |
| Gradebook.IndexGrades | app.js:715-718 | every entry of the lookup is a grade of the chosen assignment, for the student it is keyed by |
| Gradebook.IndexGradesKeys | app.js:715-718 | a student has an entry exactly when some grade of the assignment is theirs |
| Gradebook.IndexGradesLastWins | app.js:715-718 | a student's entry is their last grade of the assignment |
| Gradebook.BuildGradeLookup | app.js:715-718 | the `forEach` loop builds exactly the lookup `IndexGrades` specifies |
| Gradebook.GradeForm | app.js:722-734 | one row per student, in order; a graded student's marks read back as the stored marks, and the feedback is the stored feedback as `value="…"` reads it back (unchanged when it holds no quote, ampersand or line break); other students get two empty inputs |
| Gradebook.FirstRowFor | app.js:750 | `querySelector` finds the first row carrying the student's id |
| Gradebook.Route | app.js:755-768 | a PUT to `/grades/{id}` exactly when the looked-up grade has a truthy id, otherwise a POST to `/grades` |
| Gradebook.RowRequest | app.js:747-769 | a row yields a request exactly when `parseInt` of its marks is a number ≥ 0; the request carries those marks, the ids, the row's feedback input and the route |
| Gradebook.RowRequests | app.js:747-770 | the outcome of every row, in row order |
| Gradebook.SavedRows | app.js:754 | the saved rows are exactly the rows with readable non-negative marks, in increasing order |
| Gradebook.PlannedSavesPerRow | app.js:746-770 | the save requests match the saved rows one for one and in order: the j-th request is the j-th saved row's |
| Gradebook.UneditedFormResaves | app.js:722-769 | saving an unedited form re-sends every stored non-negative grade's marks, with its feedback as the input shows it, and nothing for ungraded students |
| Gradebook.QuotedFeedbackCut | app.js:731 | as written, saving an unedited form sends a stored feedback `a"b` back as `a` |
| Gradebook.UneditedEscapedFormResaves | app.js:731 | with the feedback escaped, saving an unedited form re-sends every stored non-negative grade unchanged, feedback included |
| AppState.AttendancePercent | app.js:270-273 | the dashboard figure is shown only when there are students; it is records/(30·students)·100 rounded to the nearest integer, halves up, and at most 100 when there are at most 30 records per student |
| AppState.StudentCount | app.js:323 | a class's student count is the number of positions holding a student of the class; it is 0 exactly when no student belongs to it |
| AppState.ClassRows | app.js:322-323 | one classes-table row per class, in order, with its student count |
| AppState.StudentRows | app.js:433-437 | one students-table row per student, in order, with a rate of at most 100 |
| AppState.State.constructor | app.js:5-13 | every cached collection starts empty |
| AppState.State.LoadDashboard | app.js:260-274 | the four collections are replaced, `null` becoming empty, and the four figures are their sizes plus the attendance figure |
| AppState.State.LoadClasses | app.js:317-323 | only the classes are replaced; the counts use the cached students |
| AppState.State.LoadStudents | app.js:428-437 | only the students are replaced; the rates use the cached attendance |
| AppState.State.LoadClassSelect | app.js:491-492 | only the classes are replaced |
| AppState.State.LoadAttendanceForm | app.js:507-522 | nothing happens without a class; otherwise the roster replaces the students and the form is prefilled from the day's records |
| AppState.State.LoadGradebookForm | app.js:685-690 | nothing happens without a class; otherwise the roster and the class's assignments are replaced |
| AppState.State.LoadGradesList | app.js:708-735 | the lookup becomes the index of the class's grades for the assignment, and the form is built from it over the cached students |
| AppState.State.SaveGrades | app.js:737-770 | a missing class or assignment gives the "Please select class and assignment" error and no request; otherwise the loop issues exactly the planned requests, in row order |
| ConnectFlow.ConnectRequest | app.js:384-387 | a missing target gives "No target class", then a missing pick gives "Select a student first"; otherwise a PUT to `/students/{picked}` with the target class |
| ConnectFlow.StudentIds | app.js:362-374 | every fetched student is listed, in order |
| ConnectFlow.ConnectModal.constructor | app.js:341-342 | both variables start out `null` |
| ConnectFlow.ConnectModal.Open | app.js:344-375 | opening sets the target, clears the pick, shows the modal and lists the students with no row highlighted |
| ConnectFlow.ConnectModal.ClickRow | app.js:368-372 | a click leaves only the clicked row highlighted and picks its student |
| ConnectFlow.ConnectModal.Close | app.js:377-382 | cancelling hides the modal and clears both variables |
| ConnectFlow.ConnectModal.Submit | app.js:384-396 | an unset variable gives its message and no request; otherwise the PUT is sent; on an answer the modal closes, on no answer a failure message is shown and the state stays |
| ConnectFlow.PickTwiceThenConnect | app.js:368-387 | picking X then Y leaves only Y highlighted and connects Y; connecting right after opening sends nothing |
| Chart.ClassIds | app.js:790-795 | the rebuilt select offers every class id, in order |
| Chart.RebuiltSelectValue | app.js:788-799 | a select whose options were recreated shows its first option, or the empty value when there is none |
| Chart.FirstClass | app.js:799 | `state.classes[0]?.id` as a truthy id, or nothing |
| Chart.AnalyticsClassAsWritten | app.js:788-800 | as written, the page always loads the first class |
| Chart.AnalyticsClass | app.js:799-800 | corrected: the user's choice is kept when it is still offered, otherwise the first class |
| Chart.AnalyticsChoiceDropped | app.js:890-896 | choosing a class other than the first reloads the first class as written, and loads the chosen class when corrected |
| Chart.AnalyticsPath | app.js:799-802 | as written, the analytics request goes to `/classes/{first class id}/analytics` whatever class was picked, and is skipped when there is no first class |
| Chart.CanvasWidth | app.js:830 | the canvas width is in [600, 900]: exactly 600 up to 12 students, 900 from 18, otherwise 50 per student |
| Chart.ChartWidth | app.js:842 | the plot width is in [520, 820] |
| Chart.BarWidth | app.js:846 | a bar is at least 12 wide and at least the plot width per student less the gap, and is one of the two |
| Chart.GridlineY | app.js:853 | the top gridline is at the padding and the bottom one at the base of the plot |
| Chart.GridLabel | app.js:858 | gridline i is labelled 100 − 20·i |
| Chart.GridLabels | app.js:852-860 | the labels from the top down are 100, 80, 60, 40, 20, 0 |
| Chart.BarFor | app.js:865-867 | a bar's height is its value's share of the plot height; it stands on the base line and stays within the plot for values 0..100 |
| Chart.BarValue | app.js:864 | a missing value is drawn as 0 |
| Chart.Bars | app.js:863-867 | one bar per student average, in order |
| Chart.HeightsProportional | app.js:866 | bar heights are in the ratio of their values |
| Chart.BarMeetsGridline | app.js:853-867 | a bar whose value is a gridline's label tops out on that gridline; a value-100 bar reaches the top gridline |
| Chart.BarsApart | app.js:865 | consecutive bars are at least a gap apart, so bars never overlap |
| Chart.BarRight | app.js:865 | a bar's right edge is its left edge plus its width |
| Chart.BarWithinLast | app.js:865 | no bar starts left of the plot or ends right of the last bar |
| Chart.RoomForBars | app.js:830-846 | the plot gives each student at least 20 units exactly when there are at most 41 students |
| Chart.LastBarRight | app.js:846-865 | with room, the bars fill the plot width exactly; without room, the last bar overflows it |
| Chart.BarsFitIff | app.js:830-867 | every bar lies within the plot exactly when there are at most 41 students |
| Forms.PageTitle | app.js:132-147 | a known page gets its title and any other page gets "Dashboard"; the title is never empty |
| Forms.TrimAll | app.js:245 | each piece is trimmed, in order |
| Forms.DropEmpty | app.js:245 | `filter(Boolean)` keeps every non-empty piece, in order, and nothing else |
| Forms.ParseSubjects | app.js:245 | the subjects are exactly the non-blank comma-separated pieces, trimmed, in input order; each is non-empty, trimmed and free of commas |
| Forms.BlankSubjects | app.js:245 | a blank subjects input gives no subjects |
| Forms.SubjectsRoundTrip | app.js:245 | a list of subjects written out with commas parses back to that list |
| Forms.AccountRequest | app.js:241-247 | an empty name or school gives "Name and school are required"; otherwise the request carries the fields and the parsed subjects |
| Forms.TotalMarks | app.js:649 | the total is the typed number unless it is unreadable or 0, in which case it is 100; it is never 0 |
| Forms.TotalMarksOfTyped | app.js:649 | a typed non-zero total is kept, while a typed 0 and an empty input give 100 |
| Forms.CreateAssignment | app.js:644-657 | no class or a blank title or due date gives "Please fill class, title and due date"; otherwise the trimmed fields go to `/classes/{id}/assignments` |
| Forms.ScheduleMeeting | app.js:1081-1091 | any missing or blank field gives "Please fill all fields"; otherwise the trimmed parent name and date go to `/classes/{id}/meetings` |

## Left out

- **Rendering.** DOM building, select population and handler wiring are
  not modelled. Of the `innerHTML` templating, only how a text input reads
  back a value written into `value="…"` is modelled (`Markup`).
- **Transport.** `apiCall` and its token, loader and toast effects are not
  modelled. Each answer is an `Option` parameter.
- **Order of saves.** The requests of `saveGrades` are an ordered sequence;
  `Promise.all` concurrency and partial failure are not modelled. The
  reload after saving (app.js:773-777) and after connecting
  (app.js:390-391) is not modelled either.
- **Outside the core.** Login, logout, the auth overlay, toasts, timers,
  dialogs and the `Date` computation of "today" (a parameter) are not
  modelled.
- **Drawing and floating point.** Canvas calls, text labels and
  `rotate(-Math.PI / 6)` are not modelled. Lengths are exact rationals, so
  floating-point rounding of the geometry is not captured.
- **Server content.** The analytics top performers, weak topics and
  overall average are computed by the server and only displayed.
- **Assignment deletion.** The post-delete reload (app.js:593-607) is not
  modelled.
- **Prototype keys.** Keys of `Object.prototype` are not modelled. In
  `app.js` a student id or page name such as "constructor" would find an
  inherited member in `existingMap` or the title table. The model uses
  true maps.
- **Document order of `querySelector`.** The model assumes the first
  matching element is in the current form. The gradebook inputs also
  carry `data-student-id`, so on a page where both forms were rendered,
  the attendance reason lookup could find a gradebook input first.
- **Ids.** Identities are strings. Numeric ids and the falsy id `0` are not
  modelled.
- Attendance.AttendanceRate: rounds the exact rational 100·present/total,
  while app.js:436 rounds the double `(present / total) * 100`. They differ
  when the exact value is a half: 23 present of 40 shows 57 (the double is
  57.49999999999999) where the model gives 58; 29/200 shows 14 (model 15)
  and 57/200 shows 28 (model 29).
- Attendance.AttendanceRateIsRoundedPercentage: states `Math.round` of the
  exact percentage, not of the double app.js:436 rounds (23/40: 57 shown,
  58 modelled).
- Attendance.RoundedPercent: exact rational rounding, with the same gap to
  double rounding as AttendanceRate.
- Attendance.RoundedPercentIsMathRound: about the exact percentage, not
  the double app.js:436 computes.
- AppState.AttendancePercent: rounds the exact rational, while app.js:271
  rounds a double: 69 records for 4 students shows 57 where the model
  gives 58.
- Attendance.StoredRecords: an assumption about the server, which is not
  part of this model: each entry is stored verbatim as one record with the
  batch's date. ReopenAfterSave and ReopenEscapedAfterSave rest on it.
- Attendance.ReopenAfterSave: holds only when no reason holds a quote, an
  ampersand, a line break or a NUL; QuotedReasonCut shows the loss
  otherwise.
- Gradebook.UneditedFormResaves: the re-sent feedback is the feedback as
  its input shows it, which is the stored feedback only when it holds no
  quote, ampersand, line break or NUL; QuotedFeedbackCut shows the loss
  otherwise.
- Markup.AttrValue: only the references `&amp;` and `&quot;` are decoded.
  Other references (`&lt;`, `&#39;`, legacy ones without `;`) and the NUL
  replacement are not modelled. Every claim that a text is shown unchanged
  excludes `&`, `"`, line breaks and NUL, so none rests on them.
- Markup.Shown: student ids are also written unescaped, into
  `data-student-id` and into `querySelector` strings. An id holding a
  quote is not modelled.
- JsText.ParseInt: marks beyond 2^53 are read exactly, where JavaScript
  loses precision. -0 is the integer 0.
- Gradebook.GradeForm: marks are modelled as integers. A stored fractional
  mark, or a missing feedback (rendered as "undefined"), is not modelled.
- ConnectFlow.ConnectModal.Open: opening and the arrival of the student
  list are one step. A cancel made while the list is still loading is not
  modelled.
- AppState.State: the `grades`, `currentClass` and `currentAssignment`
  fields of `state` are never read or written after initialisation, so
  they are left out. The dynamically added `currentGrades` is a field.
- Chart.AnalyticsPath: the initial `loadDashboard` call when no classes
  are cached (app.js:785) is not modelled. The classes are the cache after
  that call.

## Findings

| source | as written | input that shows it | evidently intended | confidence | as-written member | corrected member |
|---|---|---|---|---|---|---|
| app.js:534 | The stored reason is written unescaped into `value="${reason \|\| ''}"`. A reason holding `"` ends the attribute at the quote, so the form shows only the text before it, and the next save stores that. | A record with reason `Sick "flu"`: the reopened form shows `Sick `, and saving it unedited stores `Sick `. | The reason input shows the stored reason, for example by escaping `&` and `"` in the markup. | high, not executed | Attendance.QuotedReasonCut | Attendance.ReopenEscapedAfterSave |
| app.js:731 | The stored feedback is written unescaped into `value="${feedbackVal}"`. Feedback holding `"` is shown cut at the quote, and "Save grades" sends the cut text back. | A grade with marks 90 and feedback `Good "hook"`: saving the unedited gradebook sends `PUT /grades/{id}` with feedback `Good `, overwriting the stored text. | Saving an unedited gradebook re-sends the stored feedback unchanged. | high, not executed | Gradebook.QuotedFeedbackCut | Gradebook.UneditedEscapedFormResaves |
| app.js:788-800 | Every run of `loadAnalytics` empties and refills the class select, including the run its own `onchange` handler starts (app.js:892-895). A refilled single-choice select selects its first option, so `classSelect.value` is always the first class id. | Classes `a` and `b`; the user picks `b`; the change handler reloads, the select is refilled and shows `a`, and `/classes/a/analytics` is requested. | Keep the user's choice when it is still among the options, so the chart shows the chosen class. | high, not executed | Chart.AnalyticsClassAsWritten | Chart.AnalyticsClass |
