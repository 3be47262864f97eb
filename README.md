# Kanban day tracker: a Dafny model of its task store, task routes, board page and date helpers

The tracker keeps each day's tasks in a Markdown file. Three headers,
`## 📋 Backlog`, `## 🚀 In Progress` and `## ✅ Done`, each head a list of
task lines of the form `- [ ] [#id] text`; a Done task is written `- [x]`.

- **Task store.** The server reads the three lists out of the file
  (`parseTasks`). It writes them back by rewriting the file line by line
  (`generateTasksMarkdown`): every non-task line is kept, the old task lines
  are dropped, and each header is followed by an empty line and the fresh
  task lines.
- **Task routes.** `POST` appends a new task to a section. `PUT` moves a task
  to the end of a section. `DELETE` removes a task.
- **Board page.** The page holds the same three-list record as React state,
  plus a ref copy of it. Dragging a task over a column or over another task
  moves it on the board. The end of the drag deletes the task (dropped on the
  trash) or sends its section and index to be persisted. Editing a task's
  text and toggling its flag are updates of the record.
- **Date helpers.** They format and parse `YYYY-MM-DD`, compute week labels
  (the ISO 8601 week outside the years 0 to 99), and compute the
  Monday-to-Sunday range of a week.

Modules:

- `Optional`: the `Option` type.
- `Text`: `split`, `join`, `startsWith`, `includes` and `trim` over strings as
  character sequences.
- `Tasks`: tasks, sections, the three-list record, and the first-hit section
  search every handler uses.
- `TaskStore`: the Markdown file, with its parser, rewriter and skeleton.
- `TaskService`: the `POST`, `PUT` and `DELETE` handlers as transforms of the
  file text.
- `Board`: the page's updaters and the `Page` class holding `tasks` and
  `tasksRef.current`.
- `Calendar`: ECMAScript's proleptic Gregorian day numbers.
- `DateUtils`: the date helpers.

A `Date` is its day number (0 is 1970-01-01). Loops in the source are methods
with loop invariants, proved equal to specification functions. The
properties are lemmas about those functions.

Behaviours of the code that the model keeps and proves:

- **Round trip.** A file that names each section's header once reads back,
  after a rewrite, as the lists written. This holds when each id is made of
  id characters and each text is trimmed, is one line, and holds no `- [x]`.
  Two things change on the way: `done` follows the section, and `flagged` is
  lost, since the file does not store it.
- **Repeated headers.** A header that occurs twice gets its section's tasks
  written twice. The next read then returns them twice.
- **Blank lines grow.** Every rewrite adds one more empty line after each
  header, because the empty line written before is kept as ordinary text.
- **The sleep section.** The skeleton writes a fourth header,
  `## 💤 睡眠后台任务`. Neither pass recognises it. Task lines below it
  therefore count as Done tasks, and the rewriter drops them.
- **Two-digit years.** `getWeekNumber` copies the date with `Date.UTC`,
  which reads the years 0 to 99 as 1900 to 1999. Such a date is reported in
  the ISO week of the same day 1900 years later. A Thursday in the year 99
  of a date in the year 100 is counted from 1 January 1999, so the week
  number is negative.
- **Dragging over the task's own column.** The dragged task is inserted a
  second time at the end of its own section, and the original stays (see
  Findings).

## Model

| member | source | states |
|---|---|---|
| Text.JoinSplit | app/api/tasks/route.js:44 | joining the pieces `split('\n')` makes gives the text back |
| Text.SplitJoin | app/api/tasks/route.js:102 | splitting the joined output lines gives those lines back when none holds a newline |
| Text.Trim | app/api/tasks/route.js:57 | `trim` leaves no white space at either end, and keeps an already trimmed text |
| Text.TrimSlice | app/page.js:355 | the trimmed text is a slice of the input with only white space cut from both ends |
| Tasks.SectionOfKey | app/page.js:142 | `overId in prev` holds exactly for the three section keys, and names that section |
| Tasks.Sections.With | app/page.js:358-361 | the spread `{...prev, [section]: l}` sets that section to `l` and leaves the others |
| Tasks.FindIndex | app/api/tasks/route.js:148 | `findIndex` is the first index holding the id, and -1 exactly when no task has it |
| Tasks.FirstHolder | app/api/tasks/route.js:147-153 | the section search stops at the first section in board order holding the id; none means no section holds it |
| Tasks.RemoveAt | app/api/tasks/route.js:150 | `splice(i, 1)` keeps the tasks before `i`, shifts those after, and loses exactly the one at `i` |
| Tasks.Insert | app/page.js:222 | `splice(i, 0, x)` puts `x` at `i`, keeps the tasks before and shifts the rest |
| TaskStore.HeaderOfMeans | app/api/tasks/route.js:48-53 | a line is a header of the section found by the `startsWith` chain, and no header when none matches |
| TaskStore.CursorIsLastHeader | app/api/tasks/route.js:45-53 | the section cursor after some lines is the last recognised header among them |
| TaskStore.FindMarker | app/api/tasks/route.js:55 | the id pattern matches at the index found and at no earlier index |
| TaskStore.ExtractId | app/api/tasks/route.js:55-56 | with a marker, the id is the capture of the first `[#…]` match: the id characters between `[#` and the `]` that closes it; without one, the clock reading `Date.now()` |
| TaskStore.StripTaskPrefix | app/api/tasks/route.js:57 | the anchored replace drops a leading box, id marker and space and keeps the rest; a line without that prefix, in particular one without a marker, is kept whole |
| TaskStore.ParseTaskLine | app/api/tasks/route.js:55-60 | a task line gives the capture of its first `[#…]` marker as its id, or the clock reading without one; its text is the trimmed rest after a leading box and marker, or the whole trimmed line when the line does not start with them (in particular without a marker); it is done exactly when `- [x]` occurs anywhere in it, and never flagged |
| TaskStore.ParseIsLastHeaderRule | app/api/tasks/route.js:47-62 | a task line belongs to the last recognised header above it, and lines before the first header are no tasks |
| TaskStore.ParseTasks | app/api/tasks/route.js:37-65 | the one-pass loop with a section cursor computes the parse of the file |
| TaskStore.ReadLine | app/api/tasks/route.js:48-61 | one loop step: a header moves the cursor, a task line under a header is pushed onto its section |
| TaskStore.RenderLine | app/api/tasks/route.js:79-93 | a rendered line starts with `- [`; for a valid id it is a box and marker the parser's replace strips, followed by the text; under Done it holds `- [x]` |
| TaskStore.RenderSection | app/api/tasks/route.js:78-80 | one rendered line per task, in order |
| TaskStore.ChunkBranches | app/api/tasks/route.js:73-99 | what one old line becomes: header, empty line and fresh tasks; nothing for an old task line; the line otherwise |
| TaskStore.PushSection | app/api/tasks/route.js:78-80 | the inner loop appends the section's rendered lines to the output |
| TaskStore.RewriteLine | app/api/tasks/route.js:74-99 | one rewriter step writes the chunk of that line and moves the cursor as the parser does |
| TaskStore.GenerateTasksMarkdown | app/api/tasks/route.js:68-103 | the rewriting loop computes the rewritten file |
| TaskStore.RenderedLineParses | app/api/tasks/route.js:79 | reading a rendered task line gives back its id and text, with `done` set by the section |
| TaskStore.RenderedChecked | app/api/tasks/route.js:93 | `- [x]` occurs in a rendered line exactly when it was rendered under Done |
| TaskStore.ParseRendered | app/api/tasks/route.js:78-94 | a section's rendered lines, read under its header, give the section's list back with `done` set by the section |
| TaskStore.GenerateSplits | app/api/tasks/route.js:102 | the joined output splits back into the rewritten lines |
| TaskStore.HeaderSumGet | app/api/tasks/route.js:74-94 | reading the rewrite gives each section's list once per occurrence of its header |
| TaskStore.RoundTrip | app/api/tasks/route.js:68-103 | with each header once, reading a rewritten file gives back the lists written, `done` set by the section and the flag dropped |
| TaskStore.RewriteKeepsFurniture | app/api/tasks/route.js:95-99 | every non-task line is kept in order, plus one more empty line after each header |
| TaskStore.InitTasksFile | app/api/tasks/route.js:16-34 | an existing file is kept; a missing one gets the skeleton |
| TaskStore.SkeletonHasNoTasks | app/api/tasks/route.js:21-30 | the skeleton holds no task |
| TaskStore.FreshFile | app/api/tasks/route.js:21-30 | the skeleton is ten lines with each section header once, in board order, and no task |
| TaskStore.FreshFileRoundTrip | app/api/tasks/route.js:21-30 | writing lists into a fresh file and reading it back gives those lists, `done` set by the section |
| TaskStore.SleepIsNoHeader | app/api/tasks/route.js:29 | the sleep header is neither a section header nor a task line |
| TaskStore.SleepTasksJoinDone | app/api/tasks/route.js:48-54 | a task below the sleep header, after Done, is read as a Done task |
| TaskService.Take | app/api/tasks/route.js:146-153 | the search finds nothing exactly when no section holds the id, and otherwise takes a task with that id |
| TaskService.Search | app/api/tasks/route.js:146-153 | the loop over the sections splices out the first hit, or leaves the lists when there is none |
| TaskService.Post | app/api/tasks/route.js:115-134 | the new task has the given id and text and is not done; the file written has it pushed onto its section |
| TaskService.Put | app/api/tasks/route.js:137-163 | success exactly when some section holds the id; then the file with the task moved, otherwise the file as it was |
| TaskService.Delete | app/api/tasks/route.js:166-192 | success exactly when some section holds the id; then the file without the task, otherwise the file as it was |
| TaskService.Added | app/api/tasks/route.js:129 | `push` puts the task last in its section; the other sections stay and the board gains exactly that task |
| TaskService.TakeFirstOfBoard | app/api/tasks/route.js:146-153 | the task taken is the first with that id on the whole board, read section by section; the rest keep their order |
| TaskService.TakeKeeps | app/api/tasks/route.js:150 | the board loses exactly the task taken |
| TaskService.DeleteRemovesFirst | app/api/tasks/route.js:175-182 | `DELETE` removes the first task with the id on the board and touches no other section |
| TaskService.Deleted | app/api/tasks/route.js:175-191 | `DELETE` has lists to write exactly when some section holds the id; otherwise it answers 404 |
| TaskService.MoveKeepsTasks | app/api/tasks/route.js:146-160 | `PUT` permutes the board, the moved task ends its new section, and a third section is untouched |
| TaskService.Moved | app/api/tasks/route.js:146-162 | `PUT` has lists to write exactly when some section holds the id, and then the moved task is last in `status` |
| TaskService.MoveWithinSection | app/api/tasks/route.js:150-156 | moving to the task's own section sends it from its place to the end |
| TaskService.MoveFindsIff | app/api/tasks/route.js:155-162 | `PUT` and `DELETE` report not-found for the same ids |
| TaskService.PostThenRead | app/api/tasks/route.js:129-132 | after a `POST` on a file with each header once, the next read returns the lists with the new task appended, `done` set by the section |
| Board.FindSection | app/page.js:115-121 | a section key names itself; otherwise the first section holding the id, or none when no section holds it |
| Board.Locate | app/page.js:147-154 | the loop finds the first holding section and the index of its first task with the id, or -1 |
| Board.ArrayMove | app/page.js:184 | `arrayMove` keeps the length and the tasks, with the moved task at the target index |
| Board.ArrayMoveKeepsOrder | app/page.js:184 | apart from the moved task, `arrayMove` keeps the tasks in their order |
| Board.Without | app/page.js:207 | `filter` drops every task with the id and keeps all the others |
| Board.WithoutAppend | app/page.js:207 | `filter` keeps the order: filtering two lists joined is joining the filtered lists |
| Board.PlaceIndex | app/page.js:194-204 | the insertion index never exceeds the target's length, so the `splice` is in range |
| Board.PlaceAcross | app/page.js:206-231 | across sections, the source is filtered, the target gets the task at the index, the third section stays |
| Board.DragOver | app/page.js:140-232 | a new record only when the dragged task is on some section and the over target is a column or on some section; only the source and the target section can change |
| Board.DragOverEvent | app/page.js:134-177 | the drag over changes nothing exactly when there is no over id, it is empty or the dragged task itself, the dragged task is on no section, or the target is neither a column nor on a section |
| Board.DragOverUpdater | app/page.js:140-232 | the updater's searches and branches compute the drag-over result |
| Board.ReorderStep | app/page.js:181-190 | the same-section branch: `prev` when the indices coincide, else `arrayMove` |
| Board.PlaceStep | app/page.js:193-231 | the cross-section and column branch: filter the source and splice the task into a copy of the target |
| Board.DragOverUnchangedIff | app/page.js:156-177 | the updater returns `prev` exactly when the dragged task or the over target is on no section |
| Board.DragOverSameSection | app/page.js:181-190 | over a task of the same section, the section is reordered: same tasks, dragged task at the other's index, rest in order |
| Board.DragOverAcross | app/page.js:193-231 | into another section, the dragged id leaves the source and the task enters the target at the computed index |
| Board.DragOverAcrossKeepsCount | app/page.js:206-231 | with the dragged id on one task, a cross-section move keeps the number of tasks |
| Board.DragOverOwnColumnDuplicates | app/page.js:209-218 | over its own column, the task is inserted again at the end and the original stays |
| Board.OwnColumnMovesToEnd | app/page.js:209-218 | corrected, the section holds the id once, last, with the same tasks; the other sections stay |
| Board.DragEnd | app/page.js:235-285 | trash means delete; otherwise the first holding section and index are persisted, or not-found when none holds the task |
| Board.DropOnColumnPersistsEnd | app/page.js:250-262 | after a drag over another section's column, the drop persists that section and the index at its end |
| Board.SaveEdited | app/page.js:354-361 | an edit changes only the text of the tasks with the id in the named section, and nothing for a blank text |
| Board.SaveEditIdempotent | app/page.js:358-361 | saving the same edit twice is saving it once |
| Board.Toggled | app/page.js:379-390 | toggling negates `flagged` on the tasks with the id in the named section and changes nothing else |
| Board.ToggleTwice | app/page.js:384-386 | toggling twice gives back the record |
| Board.Page.constructor | app/page.js:27-28 | the state and the ref start as three empty lists |
| Board.Page.SyncRef | app/page.js:49-51 | the effect copies the state into the ref and keeps the state |
| Board.Page.HandleDragOver | app/page.js:134-140 | without an over id, or over itself, nothing changes; otherwise a new record goes to both the state and the ref |
| Board.Page.HandleDragEnd | app/page.js:235-285 | the drop reads the ref and returns the drag-end action |
| Board.Page.SaveEdit | app/page.js:354-361 | the state gets the edited record and the ref is left alone |
| Board.Page.ToggleFlag | app/page.js:379-390 | the state and the ref both get the toggled record |
| DateUtils.NatToString | lib/date-utils.js:5-6 | `String(n)` is the digits of `n` without leading zeros and reads back as `n` |
| DateUtils.PaddedValue | lib/date-utils.js:5-6 | `padStart(2, '0')` of a month or day gives two digits with the same value |
| DateUtils.FormatDate | lib/date-utils.js:3-8 | for a year from 0 on, the text splits at its dashes into the numbers of the year, month and day |
| DateUtils.FormatShape | lib/date-utils.js:3-8 | for a four-digit year the text is `YYYY-MM-DD`, the fields the year, month and day |
| DateUtils.ToNumber | lib/date-utils.js:11 | `Number` of a digit string is its decimal value, and of an empty or blank string 0 |
| DateUtils.NewDate | lib/date-utils.js:12 | for a month index from 0 to 11, the day of that month of the full year, years 0 to 99 read as 1900 to 1999; a date exactly when that day is within the time range |
| DateUtils.ParseDate | lib/date-utils.js:10-13 | fewer than three fields give an Invalid Date; a date parsed lies within the time range |
| DateUtils.ReadCivilText | lib/date-utils.js:11 | splitting a formatted date on `-` reads back its year, month and day |
| DateUtils.ParseCivilText | lib/date-utils.js:10-13 | parsing the text of a valid date from year 100 on gives that date |
| DateUtils.ParseFormat | lib/date-utils.js:3-13 | `parseDate(formatDate(d))` is `d` for years from 100 on |
| DateUtils.FormatParse | lib/date-utils.js:3-13 | a canonical date text parsed and formatted again is the same text |
| DateUtils.ExtraFieldsIgnored | lib/date-utils.js:11 | fields after the third dash are ignored |
| DateUtils.TooFewFields | lib/date-utils.js:11-12 | fewer than three fields give an Invalid Date |
| DateUtils.IsoWeekday | lib/date-utils.js:27 | `getUTCDay() \|\| 7` runs 1 (Monday) to 7 (Sunday) and agrees with the weekday |
| DateUtils.MondayOf | lib/date-utils.js:37 | the Monday is a Monday, at most six days before the date |
| DateUtils.MoveToThursday | lib/date-utils.js:28 | the `setUTCDate` step lands on the Thursday of the date's week |
| DateUtils.ThursdayCount | lib/date-utils.js:29-30 | the whole weeks counted from the first of January give the Thursday's week number |
| DateUtils.CeilDiv | lib/date-utils.js:30 | `Math.ceil(a / b)` is the least `q` with `a <= b * q` |
| DateUtils.GetWeekNumber | lib/date-utils.js:25-32 | the label is `YYYY-Www` of the reported week: the count, from the first of January as `Date.UTC` builds it, of the Thursday of the week of the date's `Date.UTC` copy |
| DateUtils.WeekNumberSteps | lib/date-utils.js:29-31 | the year and the count the method computes from that Thursday are the reported week |
| DateUtils.UtcThursday | lib/date-utils.js:26-28 | the `Date.UTC` copy moved by `setUTCDate` is the Thursday of the copy's week |
| DateUtils.TwoDigitUtcDay | lib/date-utils.js:26 | `Date.UTC` of a year from 0 to 99 names the same month and day of 1900 plus that year |
| DateUtils.CopyOfLaterYear | lib/date-utils.js:26 | outside the years 0 to 99 the `Date.UTC` copy is the date itself |
| DateUtils.CountFromJanuary | lib/date-utils.js:29-30 | for a Thursday outside the years 0 to 99, the count from `Date.UTC`'s first of January is its ISO week |
| DateUtils.ReportedIsIso | lib/date-utils.js:25-32 | when neither the date nor its Thursday is in the years 0 to 99, the reported week is the ISO 8601 week |
| DateUtils.ReportedTwoDigitYear | lib/date-utils.js:26-31 | in the years 0 to 99 the reported week is the ISO week of the same day 1900 years later |
| DateUtils.YearFiftyWeek | lib/date-utils.js:26-31 | 4 January of the year 50 is reported as week 1 of 1950, while its ISO week is week 1 of the year 50 |
| DateUtils.LastDayOf99 | lib/date-utils.js:29-30 | 31 December 99 is counted from 1 January 1999, a negative week of the year 99 |
| DateUtils.CenturyStartWeek | lib/date-utils.js:26-31 | 1 January 100 is reported in the year 99 with a negative week number |
| DateUtils.WeekNumberRange | lib/date-utils.js:30 | ISO week numbers run from 1 to 53 |
| DateUtils.SameWeek | lib/date-utils.js:25-32 | all seven days from Monday to Sunday have the same week |
| DateUtils.NextWeek | lib/date-utils.js:25-32 | a week later in the same year the number is one more |
| DateUtils.EarlyThursday | lib/date-utils.js:29-30 | a Thursday in the first seven days of January is in week 1 |
| DateUtils.FourthOfJanuary | lib/date-utils.js:25-32 | the fourth of January is always in week 1 of its year |
| DateUtils.MondayDiffMeans | lib/date-utils.js:36-39 | `diff` is the Monday's day counted in the date's month, and `setDate(diff)` lands on the Monday |
| DateUtils.AsWrittenEnd | lib/date-utils.js:40 | the second `setDate(diff + 6)` on the Monday gives the as-written end |
| DateUtils.AsWrittenSteps | lib/date-utils.js:39-40 | the source's two `setDate` calls land on the as-written start and end |
| DateUtils.GetWeekRangeAsWritten | lib/date-utils.js:34-46 | the method returns the formatted as-written range |
| DateUtils.AsWrittenInMonth | lib/date-utils.js:37-40 | when the Monday is in the date's own month, the as-written range is the week |
| DateUtils.AsWrittenAcrossMonths | lib/date-utils.js:40 | otherwise the end is day `diff + 6`, between 1 and 6, of the Monday's month |
| DateUtils.AsWrittenEndBeforeStart | lib/date-utils.js:40 | and then the as-written end comes before its start |
| DateUtils.WeekRangeEndBeforeDate | lib/date-utils.js:34-46 | 2024-05-01 gives start 2024-04-29 and end 2024-04-05 |
| DateUtils.CorrectedSteps | lib/date-utils.js:39-40 | the corrected steps land on the Monday and the Sunday six days later |
| DateUtils.GetWeekRange | lib/date-utils.js:34-46 | the corrected method returns the formatted Monday-to-Sunday week |
| DateUtils.WeekRangeHolds | lib/date-utils.js:34-46 | the corrected range starts on a Monday, ends on the Sunday after it and holds the date |
| DateUtils.WeekRangeIsIsoWeek | lib/date-utils.js:34-46 | both ends of the corrected range are in the date's ISO week |
| Calendar.CivilFromDays | lib/date-utils.js:4-6 | `getFullYear`, `getMonth` and `getDate` give a valid calendar date |
| Calendar.DaysOfCivil | lib/date-utils.js:4-6 | every day number is the day number of its calendar date |
| Calendar.CivilOfDays | lib/date-utils.js:12 | every valid calendar date is the date of its day number |
| Calendar.Weekday | lib/date-utils.js:36 | `getDay` runs 0 to 6 |
| Calendar.WeekdayShift | lib/date-utils.js:36 | the weekday repeats every seven days |
| Calendar.SetDateIsMakeDay | lib/date-utils.js:39 | `setDate` is `MakeDay` of the same year and month with the new day, whatever its range |
| Calendar.MakeDayInMonth | lib/date-utils.js:12 | `new Date(y, m - 1, d)` counts `d - 1` days on from the first of the month |
| Calendar.DayOfYearBound | lib/date-utils.js:29-30 | a day lies 0 to 365 days after the first of January of its year |

## Left out

- Time of day, time zones and daylight saving time are not modelled. Each `Date` is a whole day, and the local and UTC getters agree.
- `Date.now()` and `new Date()` are parameters: `now`, `parseNow`, `newId` and `date`.
- `getTodayDate` (date-utils.js and route.js) and `getRelativeDate` are not modelled. They only read the clock and then format.
- File access, HTTP requests and responses, and `fetch` are not modelled. The handlers are functions of the file text. A 404 is `success == false` with the file left unchanged.
- The `GET` handler is not modelled. It is `initTasksFile`, a read, and `parseTasks`.
- `findTask`, the `/api/today` calls the page makes, and its error and revert paths are not modelled. They call code outside this model.
- React render timing is not modelled. The effect that syncs the ref is the separate method `Board.Page.SyncRef`, and the updaters run on the latest state.
- `isBelowOverItem` is a boolean parameter. The geometry of the dragged rectangle is not modelled.
- The record's keys are the three sections only. `in` also sees prototype-chain keys such as `toString`; that case is not modelled.
- A `status` outside the three section keys is excluded by the `Section` type. The source would throw on such a status.
- `route.js` never stores `flagged`, so a parsed task has `flagged == false`.
- `DateUtils.ToNumber`: `Number` is modelled for blanks, an optional `+` and decimal digits only. Fractions, exponents, hexadecimal, `Infinity` and a leading `-` are NaN in the model.
- `DateUtils.FormatShape`: the `YYYY-MM-DD` shape is stated for four-digit years only. Other years are written by `IntToString` unpadded, as the source writes them.
- `DateUtils.ParseFormat`: the round trip is stated from year 100 on. `new Date` maps years 0 to 99 to 1900 to 1999, and a negative year's `-` splits into an extra field.
- `DateUtils.NewDate`: the value is stated for month indices 0 to 11 only. Other month indices roll over through `MakeDay`, which the contract does not restate.
- `DateUtils.ParseDate`: the contract states the empty cases and the range only. Its value for a formatted date is stated by `DateUtils.ParseCivilText`.
- `DateUtils.GetWeekNumber`: a date within a few days of the `Date` range limit, whose copy or Thursday falls outside the range, gives `NaN-WNaN` in JavaScript. The model counts on past the limit.
- `DateUtils.FormatDate`: the contract states the fields for years from 0 on. A negative year's `-` adds a field, and the text then splits differently.
- `TaskStore.Parse`: one clock reading `now` serves every task line without a marker. `parseTasks` calls `Date.now()` once per line, so in JavaScript those ids may differ by a millisecond, while in the model they are all equal.
- `formatDate` of an Invalid Date (`NaN-NaN-NaN`) is not modelled. `FormatDate` takes a day number.

## Findings

The page's handlers and `getWeekRange`'s as-written method follow the code as written. Each corrected form is stated beside the as-written one: `Board.DragOverCorrected` and `DateUtils.GetWeekRange`.

| source | as written | input that shows it | evidently intended | confidence | as-written member | corrected member |
|---|---|---|---|---|---|---|
| lib/date-utils.js:40 | `d.setDate(diff + 6)` runs on `d`, which the line before already moved to the Monday. When the Monday is in the previous month, `diff` is zero or negative and counts from the date's month, so the end is day `diff + 6` of the Monday's month. | 2024-05-01 (a Wednesday): start 2024-04-29, end 2024-04-05 | end 2024-05-05, the Sunday six days after the Monday | not executed | DateUtils.WeekRangeEndBeforeDate | DateUtils.GetWeekRange |
| app/page.js:209-218 | Over the task's own column, the branch commented "just move to end" splices the task into a copy of its section without removing it. | a board whose Backlog is `[a, b]`, with `a` dragged over the `backlog` column: Backlog becomes `[a, b, a]` | Backlog becomes `[b, a]` | not executed | Board.DragOverOwnColumnDuplicates | Board.OwnColumnMovesToEnd |
