# Shinchan task tracker — a Dafny model of its core

Shinchan is a chat-style task tracker. The user types one command per line:

- `todo read book`
- `deadline submit /by 2026-01-15 1800`
- `event camp /from 2026-01-10 0900 /to 2026-01-12 1800`
- `list`, `find book`, `on 2026-01-11`
- `mark 2`, `unmark 2`, `delete 1`
- `bye`

The application keeps an ordered list of tasks. There are three kinds of task: todos, deadlines with a due date-time, and events with a start and an end. After every change it saves the whole list to a data file, one line per task.

This project models the non-graphical core of the Java sources. It proves what each part does:

- **`Text`** (text.dfy): the `java.lang.String` operations the core relies on. These are `trim`, `toLowerCase`, `indexOf`/`contains`, `split`, and decimal digits.
- **`Calendar`** (calendar.dfy): `LocalDate`/`LocalDateTime` as valid-by-construction values. It also covers:
  - their order and `plusDays`;
  - the ISO 8601 text written by `toString` and read by `parse`;
  - the `MMM dd yyyy` display pattern.
- **`TimeFormat`** (timeformat.dfy): `formatAmPm`, which shows the time as `8pm` or `8:30pm`. A reader for that text proves the format loses nothing but the date and the seconds.
- **`Parser`** (parser.dfy): the command word, the remainder, task numbers (with Java `int` wrap-around), and the two date parsers. `parseDateTime` uses the lenient `yyyy-MM-dd HHmm` pattern, which moves 2026-02-30 back to 2026-02-28 and reads the time `2400` as midnight at the start of the next day. `parseDate` uses strict ISO `yyyy-MM-dd`, which refuses that date. Its year is four digits, or a sign and up to ten digits (`+10000`, `-0001`), as `LocalDate.toString` writes years outside 0 to 9999.
- **`Tasks`** (task.dfy):
  - a `Task` class whose done flag changes in place;
  - `TaskData`, the value a task holds at one moment;
  - `getDueDate` and `occursOn`;
  - the `toString` renderings, with a reader proving that a rendering shows the due date-time or the event's span to the minute.
- **`TaskLists`** (tasklist.dfy): the `TaskList` class with `add`, `remove`, `get`, `size`, `find`, and `getUpcomingDeadlines`, which is given the moment `now`. `find` and `getUpcomingDeadlines` are proved against filter functions over task values.
- **`Persistence`** (storage.dfy): the data-file line codec (`formatTask`, `getStatus`, `parseTask`, `restoreStatus`) and a `Storage` class whose `load`/`save` loops work on the file as a sequence of lines. The main properties are:
  - the exact field-count checks;
  - that a line reads back as the task that wrote it;
  - that `save` then `load` returns the same list.
- **`Dispatcher`** (shinchan.dfy): `handleInput` and every `handle*` method.
  - A `Plan` function says, over task values, what a line asks for. It can be a refusal with a message, an unchecked exception, a query answer, or a new list and a reply.
  - The `Shinchan` class carries the plan out on the mutable `TaskList`, the task objects and the `Storage`.
  - Each handler is proved to leave exactly the list, data file and result its plan describes.
  - Lemmas state what the commands do, over plans and typed lines.
- **`TaskExamples`, `ParserExamples`** (task_examples.dfy, parser_examples.dfy): the concrete cases the repository's tests check, proved about the model.

A `ShinchanException` is `Fail(message)` and an unchecked exception is `Crash(fault)`, both from `Results.Result`. What the console prints is returned as a `Reply` value.

Behaviour that the model keeps as the code has it, each stated by a lemma:

- **`deadline /by 2026-01-10 1800`** passes the `" /by "` test, which is made on the whole line. The trimmed remainder `/by …` then has no `" /by "`, so `parts[1]` throws an unchecked index exception. The user never sees the "description cannot be empty" message (`Dispatcher.DeadlineWithoutDescriptionCrashes`).
- **An event line whose `/to` comes before `/from`** parses the start and then throws the same way (`Dispatcher.EventToBeforeFromCrashes`).
- **An event that ends before it starts is added.** The end is never compared with the start, and the `Events` constructor only `assert`s it (`Dispatcher.EventEndingBeforeStartIsAdded`).
- **Java assertions are off by default**, so marking a done task again, or unmarking a task that is not done, simply sets the flag (`Tasks.Task.MarkAsDone`).
- **A failed save does not undo the in-memory change** (`Dispatcher.FailedSaveKeepsChange`).
- **A description containing ` | ` loses its tail when the file is loaded** (`Persistence.SeparatorInDescriptionExample`). One ending in ` |` makes the next `load` throw `DateTimeParseException` (`Persistence.BarEndingCrashesLoad`).
- **The task number `-2147483648` wraps** to the index `2147483647` under Java `int` subtraction, and is then refused (`Parser.TaskIndexWrapsAtIntMin`).

Where the code differs from the behaviour the project describes, the model follows the code:

- `handleInput` has no `remind` case, so `remind` is an unknown command here.
- `handleFind` calls `ui.showFindResults` (src/main/java/shinchan/Shinchan.java:374), which `Ui` does not declare. The model answers with the found tasks as a `Found` reply.
- `TaskList.getUpcomingDeadlines` calls `getBy()`, which `Deadlines` does not declare (src/main/java/shinchan/TaskList.java:123). The model reads the due date-time that `getDueDateTime` returns.
- `Storage.java` has no package line, although `shinchan/Shinchan.java` imports it as `shinchan.storage.Storage`. It is modelled over the `shinchan.task` classes it builds.

## Model

| member | source | states |
|---|---|---|
| Results.Propagate | src/main/java/Storage.java:44-46 | a failure passes on unchanged: an exception with a message keeps its message, an unchecked one its kind |
| Text.Trim | src/main/java/shinchan/parser/Parser.java:39 | `trim` leaves no character at or below U+0020 at either end |
| Text.TrimOf | src/main/java/shinchan/parser/Parser.java:41 | `trim` removes exactly the white margins around a core that has none at its ends |
| Text.TrimSplits | src/main/java/shinchan/parser/Parser.java:41 | every string is its trimmed form between two all-white margins |
| Text.IndexOf | src/main/java/shinchan/parser/Parser.java:40 | a position `indexOf` returns leaves room for the whole pattern |
| Text.IndexOfSpec | src/main/java/shinchan/parser/Parser.java:40 | `indexOf` returns a position where the pattern occurs and none occurs earlier; when it returns none, the pattern occurs nowhere |
| Text.IndexOfIs | src/main/java/shinchan/parser/Parser.java:40 | the converse: the first position where the pattern occurs is the one `indexOf` returns |
| Text.NoOccurrence | src/main/java/shinchan/parser/Parser.java:40 | a pattern that occurs nowhere is not found |
| Text.Absent | src/main/java/shinchan/Shinchan.java:219 | a string that does not `contain` the pattern has it at no position |
| Text.ContainsAt | src/main/java/shinchan/Shinchan.java:219 | a string `contains` every pattern that occurs in it |
| Text.SplitOnce | src/main/java/shinchan/Shinchan.java:224 | `split(p, 2)` gives two parts exactly when the string contains `p`, one otherwise |
| Text.Pieces | src/main/java/Storage.java:79 | splitting always yields at least one piece |
| Text.DropTrailingEmpty | src/main/java/Storage.java:79 | `split` drops exactly the trailing empty pieces: the result is a prefix of the pieces, every piece dropped is empty, and the last piece kept is not empty |
| Text.Digits | src/main/java/shinchan/task/Deadlines.java:12-13 | a zero-padded field has exactly its width, only digits, and reads back as its number |
| Text.NatToString | src/main/java/shinchan/task/TimeFormat.java:14-15 | the unpadded number has no leading zero, reads back as the number, and has one digit below 10 and two below 100 |
| Text.CanonicalDigits | src/main/java/Storage.java:95 | a digit string without a leading zero is the unpadded text of its own value: that is the only way a number is written without padding |
| Text.LeadingZeros | src/main/java/shinchan/parser/Parser.java:55 | zeros written before digits do not change the value they read as |
| Text.ValueOfConcat | src/main/java/shinchan/parser/Parser.java:55 | digits written after other digits shift the earlier ones by a power of ten |
| Calendar.DateOf | src/main/java/shinchan/task/Deadlines.java:46-48 | `toLocalDate` is the day whose span holds the moment: the moment is at or after that day's start and before the next day's start |
| Calendar.BeforeNextDay | src/main/java/shinchan/task/Events.java:65-69 | a moment is before the start of the day after `d` exactly when its date is not after `d` |
| Calendar.DateBeforeTotal | src/main/java/shinchan/task/Events.java:68 | `isBefore` on dates is a strict total order |
| Calendar.NextDay | src/main/java/shinchan/TaskList.java:116 | the next day is later and no valid date lies between |
| Calendar.PrevDay | src/main/java/shinchan/TaskList.java:116 | the previous day is earlier and no valid date lies between |
| Calendar.PlusDaysForward | src/main/java/shinchan/TaskList.java:116 | `plusDays(0)` is the same date and `plusDays(n)` for `n > 0` is later |
| Calendar.Field | src/main/java/shinchan/parser/Parser.java:18-19 | a field of `n` digits is below 10^n |
| Calendar.MakeDate | src/main/java/shinchan/parser/Parser.java:87 | a date built from fields has exactly those fields |
| Calendar.ParseIsoYear | src/main/java/shinchan/parser/Parser.java:87 | the ISO year field is four unsigned digits, or a sign and more digits; what it reads lies within ±999,999,999 |
| Calendar.YearTextRoundTrip | src/main/java/Storage.java:95 | every year within ±999,999,999 that `toString` writes (`2026`, `+10000`, `-0001`) reads back as that year |
| Calendar.YearTextStrict | src/main/java/shinchan/parser/Parser.java:87 | a year the reader accepts is written exactly as `toString` writes it, unless it is a sign followed by a zero-padded number (`+00001`) |
| Calendar.ParseIsoDate | src/main/java/shinchan/parser/Parser.java:87 | an ISO date needs at least ten characters, begins with a digit or a sign, and has a year within ±999,999,999 |
| Calendar.ParseIsoDateTime | src/main/java/Storage.java:95 | an ISO date-time needs at least sixteen characters, begins with a digit or a sign, and has a year within ±999,999,999 |
| Calendar.ParseIsoDateStrict | src/main/java/shinchan/parser/Parser.java:87 | a text the ISO reader accepts is the `toString` of the date it gives exactly when its year is not a sign before a zero-padded number: no other spelling is read |
| Calendar.IsoDateRoundTrip | src/main/java/shinchan/parser/Parser.java:87 | the ISO text of every date with a year within ±999,999,999, signed or not, parses back to that date |
| Calendar.IsoDateTimeRoundTrip | src/main/java/Storage.java:95 | the text `LocalDateTime.toString` writes (seconds only when non-zero, any year within ±999,999,999) parses back to the same date-time |
| Calendar.MonthNamed | src/main/java/shinchan/task/Deadlines.java:12-13 | a short English month name reads back as the month that has it, and only as that month |
| Calendar.ParseDisplayDate | src/main/java/shinchan/task/Deadlines.java:12-13 | only text of eleven characters reads as a displayed date |
| Calendar.DisplayDateRoundTrip | src/main/java/shinchan/task/Deadlines.java:57 | a date in years 1–9999 shown as `MMM dd yyyy` reads back as the same date |
| Calendar.DisplayDateYearZero | src/main/java/shinchan/task/Deadlines.java:12-13 | the year-of-era pattern prints no era: a day of 1 BC and the same day of AD 1 look alike |
| Calendar.DisplayDateExamples | src/test/java/shinchan/task/DeadlinesToStringTest.java:15-24 | 10, 12 and 15 January 2026 show as `Jan 10 2026`, `Jan 12 2026`, `Jan 15 2026` |
| TimeFormat.Hour12 | src/main/java/shinchan/task/TimeFormat.java:11-15 | the `h` field is in 1..12 and equals the hour modulo 12, so 0 and 12 show as 12 |
| TimeFormat.Meridiem | src/main/java/shinchan/task/TimeFormat.java:11-15 | the lowercased `a` field is two lowercase letters, `am` exactly for hours before noon |
| TimeFormat.FormatAmPm | src/main/java/shinchan/task/TimeFormat.java:31-39 | the result is lowercase and 3 to 7 characters long |
| TimeFormat.FormatAmPmRoundTrip | src/main/java/shinchan/task/TimeFormat.java:31-39 | the formatted time reads back as its hour and minute: nothing but the date and seconds is lost |
| TimeFormat.FormatAmPmDependsOnTimeOnly | src/main/java/shinchan/task/TimeFormat.java:31-39 | two date-times format alike exactly when they agree on hour and minute |
| TimeFormat.MidnightAndNoonShowTwelve | src/main/java/shinchan/task/TimeFormat.java:11-15 | hours 0 and 12 both start with `12` |
| TimeFormat.MinuteHasTwoDigits | src/main/java/shinchan/task/TimeFormat.java:11-12 | a non-zero minute is written as two digits after a colon, as in `8:05pm` |
| TimeFormat.OneDigitHour | src/main/java/shinchan/task/TimeFormat.java:14-15 | a whole hour from 1 to 9 on the 12-hour clock is one digit and the meridiem |
| TimeFormat.FormatAmPmExamples | src/main/java/shinchan/task/TimeFormat.java:31-39 | 20:00 is `8pm` and 20:30 is `8:30pm`, the cases `TimeFormatTest` checks; 20:05 is `8:05pm` |
| TimeFormat.FormatAmPmMoreExamples | src/test/java/shinchan/task/EventsToStringTest.java:15-25 | 09:00 is `9am`, 18:00 is `6pm`, 17:30 is `5:30pm` |
| Parser.GetCommandWord | src/main/java/shinchan/parser/Parser.java:27-30 | the command word is lowercase, holds no space, and is no longer than the line |
| Parser.CommandWordOf | src/main/java/shinchan/parser/Parser.java:27-30 | in `word rest`, with no space in `word`, the command word is `word` lowercased |
| Parser.CommandWordOfSingle | src/main/java/shinchan/parser/Parser.java:27-30 | a line without a space is its own command word, lowercased |
| Parser.GetRemainder | src/main/java/shinchan/parser/Parser.java:38-42 | the remainder has no white character at either end |
| Parser.RemainderOf | src/main/java/shinchan/parser/Parser.java:38-42 | the remainder of `word rest` is `rest` trimmed, whatever white space surrounds it |
| Parser.ParseInt | src/main/java/shinchan/parser/Parser.java:55 | a parsed `int` lies in the 32-bit range |
| Parser.ParsedTextIsDigits | src/main/java/shinchan/parser/Parser.java:55 | only an optional sign followed by one or more decimal digits parses |
| Parser.ParseIntRoundTrip | src/main/java/shinchan/parser/Parser.java:55 | the decimal text of every 32-bit integer parses back to it |
| Parser.ParseIntOfDigits | src/main/java/shinchan/parser/Parser.java:55 | digits with a value up to 2147483647 parse as that value, also after a `+`, and after a `-` as its negation |
| Parser.ParseIntLenient | src/main/java/shinchan/parser/Parser.java:55 | leading zeros and a leading `+` are accepted: `007`, `+7` and `+007` all parse as 7, `-007` as -7 |
| Parser.IntSub | src/main/java/shinchan/parser/Parser.java:55 | Java `int` subtraction: the exact difference when it fits, otherwise the 32-bit value congruent to it modulo 2^32 |
| Parser.ParseTaskIndex | src/main/java/shinchan/parser/Parser.java:52-59 | succeeds exactly when the remainder is a decimal `int`, and otherwise fails with the caller's message |
| Parser.RemainderIsNumber | src/main/java/shinchan/parser/Parser.java:53-55 | the number typed after a command word is what is parsed |
| Parser.TaskIndexOfInt | src/main/java/shinchan/parser/Parser.java:52-59 | any `int` typed after a command word gives that number minus one in `int` arithmetic |
| Parser.TaskIndexOf | src/main/java/shinchan/parser/Parser.java:52-59 | the user number `n` (other than the smallest `int`) gives the index `n - 1` |
| Parser.TaskIndexLenient | src/main/java/shinchan/parser/Parser.java:52-59 | a task number typed with leading zeros or a leading `+` (`mark 02`, `mark +2`) gives the same index as without them |
| Parser.TaskIndexWrapsAtIntMin | src/main/java/shinchan/parser/Parser.java:55 | the number -2147483648 wraps to the index 2147483647 |
| Parser.TaskIndexRejectsNonDigit | src/main/java/shinchan/parser/Parser.java:54-58 | a remainder with a non-digit (after an optional sign) fails with the caller's message |
| Parser.TaskIndexRejectsEmpty | src/main/java/shinchan/parser/Parser.java:54-58 | an empty remainder fails with the caller's message |
| Parser.ParseDateTime | src/main/java/shinchan/parser/Parser.java:69-75 | succeeds only on 15 characters with a space at position 10, giving a year in 1..10000 (10000 only through `2400` on the last day of 9999) and zero seconds; otherwise fails with the caller's message |
| Parser.AcceptedTextIsInputText | src/main/java/shinchan/parser/Parser.java:69-75 | every text the reader accepts is the `yyyy-MM-dd HHmm` text of some two-digit fields and a four-digit year: any other layout, such as `2026/01/10 1800` or `2026-1-10 1800`, fails |
| Parser.ParseDateTimeOf | src/main/java/shinchan/parser/Parser.java:18-19 | `yyyy-MM-dd HHmm` text with fields in range gives those fields, with a day of 29 to 31 clamped to the month's last day; `2400` gives midnight of the day after the clamped date; a year 0000, a month, day or minute out of range, an hour above 24, or hour 24 with a non-zero minute fails |
| Parser.ParseDateTimeRoundTrip | src/main/java/shinchan/parser/Parser.java:69-75 | every date-time with a year in 1..9999 and no seconds reads back from the text a user types for it |
| Parser.ParseDate | src/main/java/shinchan/parser/Parser.java:85-91 | succeeds only on text of at least ten characters giving a date with a year within ±999,999,999, and that text is exactly the ISO `toString` of the date unless its year is a sign before a zero-padded number; otherwise fails with the caller's message |
| Parser.ParseDateRoundTrip | src/main/java/shinchan/parser/Parser.java:85-91 | the ISO text of any date with a year within ±999,999,999 parses back to it |
| ParserExamples.CommandWordExample | src/test/java/shinchan/parser/ParserTest.java:19-21 | `todo read book` has the command word `todo` |
| ParserExamples.RemainderExample | src/test/java/shinchan/parser/ParserTest.java:24-26 | `todo read book` has the remainder `read book` |
| ParserExamples.TaskIndexExample | src/test/java/shinchan/parser/ParserTest.java:29-31 | `delete 2` gives index 1 |
| ParserExamples.TaskIndexWordExample | src/test/java/shinchan/parser/ParserTest.java:33-39 | `delete two` fails with the caller's message |
| ParserExamples.DateExample | src/test/java/shinchan/parser/ParserTest.java:42-45 | `2026-01-10` is 10 January 2026 |
| ParserExamples.DayFirstDateExample | src/test/java/shinchan/parser/ParserTest.java:48-53 | `10-01-2026` fails with the caller's message |
| ParserExamples.DateTimeExample | src/test/java/shinchan/parser/ParserTest.java:56-61 | `2026-01-10 1800` is 10 January 2026 at 18:00 |
| ParserExamples.MissingDayExample | src/main/java/shinchan/parser/Parser.java:85-91 | `2026-02-30` fails with the caller's message |
| ParserExamples.EndOfDayExample | src/main/java/shinchan/parser/Parser.java:18-19 | `2026-01-10 2400` is midnight at the start of 11 January 2026 |
| ParserExamples.LastYearEndOfDayExample | src/main/java/shinchan/parser/Parser.java:18-19 | `9999-12-31 2400` is midnight at the start of 1 January 10000 |
| ParserExamples.PastEndOfDayExample | src/main/java/shinchan/parser/Parser.java:18-19 | `2026-01-10 2430` fails with the caller's message |
| ParserExamples.ClampedDateTimeExample | src/main/java/shinchan/parser/Parser.java:18-19 | `2026-02-30 1800` is 28 February 2026 at 18:00 |
| ParserExamples.IsoYearExamples | src/main/java/shinchan/parser/Parser.java:87 | `+00001` reads as the year 1; `+2026`, `10000` and `-0000` are not years |
| Tasks.Task.Todos | src/main/java/shinchan/task/Todos.java:13-16 | a new todo keeps its description and is not done |
| Tasks.Task.Deadlines | src/main/java/shinchan/task/Deadlines.java:26-30 | a new deadline keeps its description and due date-time and is not done |
| Tasks.Task.Events | src/main/java/shinchan/task/Events.java:29-36 | a new event keeps its description, start and end and is not done; an end before the start is accepted because the `assert` is off |
| Tasks.Task.MarkAsDone | src/main/java/shinchan/task/Task.java:34-37 | the task is done afterwards, whatever it was before; only the flag can change |
| Tasks.Task.MarkAsUndone | src/main/java/shinchan/task/Task.java:42-45 | the task is not done afterwards, whatever it was before; only the flag can change |
| Tasks.Task.GetStatusIcon | src/main/java/shinchan/task/Task.java:27-29 | one character: `X` exactly when done, a blank exactly when not |
| Tasks.StatusIcon | src/main/java/shinchan/task/Task.java:27-29 | the icon of a done flag: `X` exactly when done, a blank exactly when not |
| Tasks.DueDate | src/main/java/shinchan/task/Deadlines.java:46-48 | the due date is the day whose span holds the due moment |
| Tasks.OccursOnOverlap | src/main/java/shinchan/task/Events.java:65-69 | an event occurs on a day exactly when it starts before the day is over and ends no earlier than the day begins |
| Tasks.OccursOnSpan | src/main/java/shinchan/task/Events.java:65-69 | a well-formed event occurs on its first day, its last day and every day between |
| Tasks.OccursOnOutside | src/main/java/shinchan/task/Events.java:65-69 | an event does not occur on the day after its end or the day before its start |
| Tasks.RenderLayout | src/main/java/shinchan/task/Task.java:71-73 | a rendering is the kind's tag, then `[icon] ` with `X` exactly when done, then the unchanged description, then the kind's suffix |
| Tasks.FreshTodoRendering | src/main/java/shinchan/task/Todos.java:24-26 | a fresh todo renders as `[T][ ] ` and its description |
| Tasks.ReadStampOf | src/main/java/shinchan/task/Deadlines.java:57-61 | a `MMM dd yyyy` date and `formatAmPm` time read back as the moment to the minute, whatever follows |
| Tasks.DeadlineSuffixRoundTrip | src/main/java/shinchan/task/Deadlines.java:56-62 | ` (by: date time)` reads back as the due date-time to the minute |
| Tasks.EventSuffixRoundTrip | src/main/java/shinchan/task/Events.java:77-87 | ` (from: date time to: date time)` reads back as the start and end to the minute |
| Tasks.SuffixRoundTrip | src/main/java/shinchan/task/Events.java:77-87 | the text after the description reads back as the task's kind with its date-times to the minute |
| Tasks.RenderReadsBack | src/main/java/shinchan/task/Deadlines.java:56-62 | after the description, every rendering holds the due date-time or the event span, readable to the minute |
| TaskExamples.OccursOnExample | src/test/java/shinchan/task/EventsTest.java:17-42 | an event from 2026-01-10 to 2026-01-12 occurs on the 10th, 11th and 12th and not on the 13th |
| TaskExamples.DueDateExample | src/test/java/shinchan/task/DeadlinesTest.java:15-21 | a deadline due 2026-01-15 18:00 falls on 2026-01-15 |
| TaskExamples.DueStampExample | src/test/java/shinchan/task/DeadlinesToStringTest.java:15-24 | 2026-01-15 18:00 shows as `Jan 15 2026 6pm` |
| TaskExamples.DeadlineRenderingExample | src/test/java/shinchan/task/DeadlinesToStringTest.java:15-24 | that deadline shows ` (by: Jan 15 2026 6pm)` |
| TaskExamples.StartStampExample | src/test/java/shinchan/task/EventsToStringTest.java:15-25 | 2026-01-10 09:00 shows as `Jan 10 2026 9am` |
| TaskExamples.EndStampExample | src/test/java/shinchan/task/EventsToStringTest.java:15-25 | 2026-01-12 18:00 shows as `Jan 12 2026 6pm` |
| TaskExamples.EventRenderingExample | src/test/java/shinchan/task/EventsToStringTest.java:15-25 | that event shows ` (from: Jan 10 2026 9am to: Jan 12 2026 6pm)` |
| TaskExamples.MarkAndUnmark | src/test/java/shinchan/task/TaskTest.java:13-24 | a new todo is not done; marked it is done; unmarked it is not done again |
| TaskExamples.AddToEmpty | src/test/java/shinchan/TaskListTest.java:16-24 | adding a todo to an empty list gives size 1 with that task first |
| TaskExamples.RemoveFirstOfTwo | src/test/java/shinchan/TaskListTest.java:27-40 | removing index 0 of two returns the first; the list then holds only the second |
| TaskLists.FindData | src/main/java/shinchan/TaskList.java:95-106 | the matches are never more than the tasks |
| TaskLists.FindSnoc | src/main/java/shinchan/TaskList.java:99-103 | searching one more task appends it exactly when its description matches |
| TaskLists.FindMembership | src/main/java/shinchan/TaskList.java:95-106 | a task is found exactly when it is in the list and its lowercased description contains the trimmed, lowercased keyword |
| TaskLists.FindConcat | src/main/java/shinchan/TaskList.java:99-103 | searching a concatenation searches each part and keeps their order |
| TaskLists.ContainsEmpty | src/main/java/shinchan/TaskList.java:100 | every string contains the empty string |
| TaskLists.FindBlankKeyword | src/main/java/shinchan/TaskList.java:96-100 | a keyword that trims to nothing finds every task, in order |
| TaskLists.UpcomingData | src/main/java/shinchan/TaskList.java:114-132 | the upcoming deadlines are never more than the tasks |
| TaskLists.UpcomingSnoc | src/main/java/shinchan/TaskList.java:120-129 | scanning one more task appends it exactly when it is a deadline inside the window |
| TaskLists.UpcomingMembership | src/main/java/shinchan/TaskList.java:114-132 | a task is reported exactly when it is a deadline in the list due no earlier than `now` and no later than `now.plusDays(days)` |
| TaskLists.PlusDaysBackward | src/main/java/shinchan/TaskList.java:116 | a negative number of days moves a date strictly backwards |
| TaskLists.NegativeWindowIsEmpty | src/main/java/shinchan/TaskList.java:114-132 | with a negative number of days nothing is reported |
| TaskLists.ZeroWindowIsNow | src/main/java/shinchan/TaskList.java:114-132 | with zero days exactly the deadlines due at `now` itself are reported |
| TaskLists.TaskList.constructor | src/main/java/shinchan/TaskList.java:20-22 | a new list is empty |
| TaskLists.TaskList.Copy | src/main/java/shinchan/TaskList.java:29-31 | a list made from tasks holds those tasks in their order, as a copy that later changes to the source do not reach |
| TaskLists.TaskList.Add | src/main/java/shinchan/TaskList.java:38-40 | the task goes last, the tasks before it are unchanged, the size grows by one and `get` of the old size is the task |
| TaskLists.TaskList.Remove | src/main/java/shinchan/TaskList.java:48-50 | for an index inside the list: returns the task that was there, keeps the others in order, and the size drops by one |
| TaskLists.TaskList.Find | src/main/java/shinchan/TaskList.java:95-106 | the matches, in list order, are exactly the `FindData` of the list, each one a task of the list; the list is not changed |
| TaskLists.TaskList.GetUpcomingDeadlines | src/main/java/shinchan/TaskList.java:114-132 | the result, in list order, is exactly the `UpcomingData` of the list for `now` and `days`, each one a task of the list |
| Persistence.Status | src/main/java/Storage.java:138-140 | `1` exactly for a done task, `0` exactly for one that is not |
| Persistence.SaveLines | src/main/java/Storage.java:69-72 | one line per task, in list order, each the task's `formatTask` line |
| Persistence.ParseStamp | src/main/java/Storage.java:95 | a date-time field either parses or makes `LocalDateTime.parse` throw |
| Persistence.ParseDetail | src/main/java/Storage.java:87-105 | every refusal it makes, for too few fields or an unknown kind letter, carries "Corrupted data file." |
| Persistence.ParseTaskData | src/main/java/Storage.java:78-109 | a line either gives a task, or fails with "Corrupted data file.", or throws `DateTimeParseException` |
| Persistence.RestoreStatus | src/main/java/Storage.java:111-115 | status `1` marks the task done; any other status leaves the flag as it was |
| Persistence.ParseTask | src/main/java/Storage.java:78-109 | a fresh task object holding exactly the value `ParseTaskData` gives, or the same failure |
| Persistence.CorruptedExactly | src/main/java/Storage.java:80-105 | a line is reported corrupted exactly when it has fewer than 3 fields, an unknown kind letter, a `D` with fewer than 4 fields, or an `E` with fewer than 5 |
| Persistence.StatusRestored | src/main/java/Storage.java:107 | a loaded task is done exactly when its status field is `1` |
| Persistence.PiecesOfJoin | src/main/java/Storage.java:79 | splitting at every separator gives back the safe fields the separator joined |
| Persistence.SplitOfJoin | src/main/java/Storage.java:79 | `split` of joined safe fields, the last one non-empty, gives the fields back after trailing empty pieces are dropped |
| Persistence.StampField | src/main/java/Storage.java:95 | a date-time with a year within ±999,999,999 is written as a safe, non-empty field that parses back to it |
| Persistence.FieldsSafe | src/main/java/Storage.java:117-136 | every field of a storable task's line survives the split, and the last field is not empty |
| Persistence.ParseFormatRoundTrip | src/main/java/Storage.java:78-136 | a storable task's `formatTask` line reads back as the same task: kind, status, description and every date-time |
| Persistence.LoadData | src/main/java/Storage.java:44-46 | a loaded file gives one task per line |
| Persistence.LoadSnoc | src/main/java/Storage.java:44-46 | loading one more line gives the earlier failure, else that line's failure, else one more task at the end |
| Persistence.LoadFailsFromPrefix | src/main/java/Storage.java:44-46 | once a prefix of the file fails, the whole file fails the same way |
| Persistence.SaveLinesSnoc | src/main/java/Storage.java:69-72 | saving one more task writes one more line at the end |
| Persistence.LoadEach | src/main/java/Storage.java:44-46 | lines that each read back as the task at their position load as those tasks, in order |
| Persistence.SaveLoadRoundTrip | src/main/java/Storage.java:44-72 | saving storable tasks then loading the file gives back the same tasks in the same order |
| Persistence.SeparatorInDescriptionExample | src/main/java/Storage.java:79 | a todo whose description holds the separator is saved, then loads with only the text before the separator as its description |
| Persistence.BarEndingCrashesLoad | src/main/java/Storage.java:91-96 | a deadline whose description ends in a space and a bar is saved, then makes `LocalDateTime.parse` throw when loaded |
| Persistence.UnreadableDueCrashes | src/main/java/Storage.java:95 | a `D` line whose due field is shorter than sixteen characters, or does not begin with a digit or a sign, throws `DateTimeParseException` |
| Persistence.Storage.constructor | src/main/java/Storage.java:24-26 | the storage refers to the given file and file-system permissions |
| Persistence.Storage.Load | src/main/java/Storage.java:34-52 | a missing file is an empty list; an unreadable one fails with "Error loading data from file."; otherwise exactly the `LoadData` of the lines as fresh, distinct task objects, or its failure |
| Persistence.Storage.Save | src/main/java/Storage.java:60-76 | a writable file becomes exactly `SaveLines` of the tasks; otherwise it fails with "Error saving data to file." and the file is unchanged |
| Dispatcher.Raise | src/main/java/shinchan/Shinchan.java:233 | a failure of a called operation becomes the handler's failure, unchanged |
| Dispatcher.FailedSaveKeepsChange | src/main/java/shinchan/Shinchan.java:207-208 | when the save fails, the result is "Error saving data to file.", the list keeps the change and the file keeps its old contents |
| Dispatcher.TodoPlan | src/main/java/shinchan/Shinchan.java:200-210 | `handleTodo` either refuses the line or adds a task and reports it |
| Dispatcher.DeadlinePlan | src/main/java/shinchan/Shinchan.java:218-238 | `handleDeadline` refuses the line, throws, or adds a task and reports it |
| Dispatcher.EventPlan | src/main/java/shinchan/Shinchan.java:246-269 | `handleEvent` refuses the line, throws, or adds a task and reports it |
| Dispatcher.OnData | src/main/java/shinchan/Shinchan.java:285-293 | the tasks on a date are never more than the tasks |
| Dispatcher.OnPlan | src/main/java/shinchan/Shinchan.java:277-296 | `handleOn` refuses the line or answers with a date and its tasks, changing nothing |
| Dispatcher.MarkPlan | src/main/java/shinchan/Shinchan.java:304-332 | `handleMark`/`handleUnmark` refuse the line or update the list and show one task |
| Dispatcher.DeletePlan | src/main/java/shinchan/Shinchan.java:340-350 | `handleDelete` refuses the line or updates the list and reports the deleted task |
| Dispatcher.FindPlan | src/main/java/shinchan/Shinchan.java:368-375 | `handleFind` refuses the line or answers with the matches, changing nothing |
| Dispatcher.OtherWordsAreUnknown | src/main/java/shinchan/Shinchan.java:156-189 | the `default` branch is reached exactly by the words that are not among the ten cases |
| Dispatcher.ByeWordOnly | src/main/java/shinchan/Shinchan.java:184-186 | only the word `bye` selects the `bye` branch |
| Dispatcher.OnSnoc | src/main/java/shinchan/Shinchan.java:286-293 | scanning one more task appends it exactly when it is a deadline due on the date or an event covering it |
| Dispatcher.OnMembership | src/main/java/shinchan/Shinchan.java:285-293 | a task is listed exactly when it is in the list and is a deadline due on the date or an event covering it |
| Dispatcher.OnConcat | src/main/java/shinchan/Shinchan.java:285-293 | filtering a concatenation filters each part and keeps their order |
| Dispatcher.DispatchTodo | src/main/java/shinchan/Shinchan.java:157-159 | the word `todo` runs `handleTodo` |
| Dispatcher.DispatchDeadline | src/main/java/shinchan/Shinchan.java:160-162 | the word `deadline` runs `handleDeadline` |
| Dispatcher.DispatchEvent | src/main/java/shinchan/Shinchan.java:163-165 | the word `event` runs `handleEvent` |
| Dispatcher.DispatchFind | src/main/java/shinchan/Shinchan.java:166-168 | the word `find` runs `handleFind` |
| Dispatcher.DispatchOn | src/main/java/shinchan/Shinchan.java:169-171 | the word `on` runs `handleOn` |
| Dispatcher.DispatchList | src/main/java/shinchan/Shinchan.java:172-174 | the word `list` answers with the whole list and changes nothing |
| Dispatcher.DispatchMark | src/main/java/shinchan/Shinchan.java:175-177 | the word `mark` runs `handleMark` |
| Dispatcher.DispatchUnmark | src/main/java/shinchan/Shinchan.java:178-180 | the word `unmark` runs `handleUnmark` |
| Dispatcher.DispatchDelete | src/main/java/shinchan/Shinchan.java:181-183 | the word `delete` runs `handleDelete` |
| Dispatcher.DispatchBye | src/main/java/shinchan/Shinchan.java:184-186 | the word `bye` only says goodbye |
| Dispatcher.DispatchOther | src/main/java/shinchan/Shinchan.java:187-188 | any other word fails with "I'm sorry, but I don't know what that means." |
| Dispatcher.EmptyInputRejected | src/main/java/shinchan/Shinchan.java:150-152 | an empty line fails with "Input cannot be empty. Please enter a valid command." and changes neither the list nor the file |
| Dispatcher.UnknownCommandRejected | src/main/java/shinchan/Shinchan.java:154-189 | a line whose command word is none of the ten fails with the unknown-command message |
| Dispatcher.OnlyByeExits | src/main/java/shinchan/Shinchan.java:149-192 | `handleInput` returns true exactly for a non-empty line whose command word is `bye` |
| Dispatcher.HandlerExits | src/main/java/shinchan/Shinchan.java:156-191 | of all the branches, only `bye` ends with the exit signal |
| Dispatcher.QueriesChangeNothing | src/main/java/shinchan/Shinchan.java:166-186 | `find`, `on`, `list` and `bye` change neither the list nor the data file |
| Dispatcher.TodoAddsOne | src/main/java/shinchan/Shinchan.java:200-210 | `todo` adds exactly when the remainder is not empty, and then appends exactly one not-done todo with the remainder as description, reported with the new size; otherwise it fails with the todo message |
| Dispatcher.TodoCommandAdds | src/main/java/shinchan/Shinchan.java:200-209 | `todo <description>` appends that todo |
| Dispatcher.TodoNeedsDescription | src/main/java/shinchan/Shinchan.java:201-204 | `todo` followed only by blanks fails with "The description of a todo cannot be empty." |
| Dispatcher.DeadlineAddsOne | src/main/java/shinchan/Shinchan.java:218-238 | a line without `" /by "` fails with the missing-`/by` message before any description check; an added deadline is not done, is appended after the unchanged tasks, has the non-blank trimmed text before the first `" /by "` of the remainder as description, and is due at what the text after it parses to |
| Dispatcher.TypedDueReloads | src/main/java/shinchan/Shinchan.java:218-238 | every due date-time a user can type, including `9999-12-31 2400`, is saved as a field that reads back as the same date-time |
| Dispatcher.DeadlineCommandAdds | src/main/java/shinchan/Shinchan.java:218-237 | `deadline <description> /by <due>` appends that deadline, due at the parsed date-time |
| Dispatcher.DeadlineNeedsBy | src/main/java/shinchan/Shinchan.java:219-221 | without any `/` after the word, `deadline` reports the missing `/by`, even with no description |
| Dispatcher.DeadlineWithoutDescriptionCrashes | src/main/java/shinchan/Shinchan.java:219-227 | `deadline /by <due>` passes the `/by` check and then throws an index exception at `parts[1]` |
| Dispatcher.EventAddsOne | src/main/java/shinchan/Shinchan.java:246-269 | a remainder without both `/from` and `/to` fails with the missing-time message; an added event is not done, appended after the unchanged tasks, and has the non-blank trimmed text before the first `/from` as description |
| Dispatcher.EventCommandAdds | src/main/java/shinchan/Shinchan.java:246-268 | `event <d> /from <from> /to <to>` appends that event with the parsed start and end |
| Dispatcher.EventEndingBeforeStartIsAdded | src/main/java/shinchan/Shinchan.java:262-265 | an event whose end is before its start is added all the same |
| Dispatcher.EventToBeforeFromCrashes | src/main/java/shinchan/Shinchan.java:252-263 | `/to` typed before `/from` throws an index exception at `toParts[1]` once the start has been parsed |
| Dispatcher.MarkChangesOnlyTheFlag | src/main/java/shinchan/Shinchan.java:304-332 | `mark`/`unmark` succeed exactly when the number minus one is an index in `[0, size)`; they then set that task's flag, keep its description and kind, show it, and leave every other task as it was; anything else fails with "Invalid task number." and changes nothing |
| Dispatcher.DeleteRemovesOne | src/main/java/shinchan/Shinchan.java:340-350 | `delete` succeeds exactly for an index in `[0, size)`; it reports the task that was there with the new size, one less, and keeps the others in order (same multiset but for the removed task); anything else fails with "Invalid task number for deletion." and changes nothing |
| Dispatcher.OutOfRangeIndex | src/main/java/shinchan/Shinchan.java:358-360 | `isValidIndex` is false for any `int` typed outside `1..size`, including after wrap-around |
| Dispatcher.MarkCommandMarks | src/main/java/shinchan/Shinchan.java:304-314 | `mark n` for the n-th task marks it done and shows it |
| Dispatcher.UnmarkCommandUnmarks | src/main/java/shinchan/Shinchan.java:322-332 | `unmark n` for the n-th task marks it not done and shows it |
| Dispatcher.MarkCommandRejectsOutOfRange | src/main/java/shinchan/Shinchan.java:304-308 | `mark n`/`unmark n` for any `int` outside `1..size` fail with "Invalid task number." |
| Dispatcher.DeleteCommandRemoves | src/main/java/shinchan/Shinchan.java:340-350 | `delete n` for the n-th task removes it and reports it with the new size |
| Dispatcher.DeleteCommandRejectsOutOfRange | src/main/java/shinchan/Shinchan.java:341-344 | `delete n` for any `int` outside `1..size` fails with "Invalid task number for deletion." |
| Dispatcher.FindCommandSearches | src/main/java/shinchan/Shinchan.java:368-375 | `find <keyword>` answers with the tasks whose description contains the keyword, ignoring case, in list order |
| Dispatcher.FindNeedsKeyword | src/main/java/shinchan/Shinchan.java:369-372 | `find` followed only by blanks fails with "The find command must include a keyword." |
| Dispatcher.OnCommandLists | src/main/java/shinchan/Shinchan.java:277-296 | `on <date>` answers with the deadlines due on the date and the events covering it, in list order |
| Dispatcher.OnNeedsDate | src/main/java/shinchan/Shinchan.java:278-281 | `on` followed only by blanks fails with the missing-date message |
| Dispatcher.StartingTasks | src/main/java/shinchan/Shinchan.java:59-72 | the application starts with the loaded tasks, or with none when `load` throws a `ShinchanException`; it fails only when loading throws an unchecked exception |
| Dispatcher.Shinchan.constructor | src/main/java/shinchan/Shinchan.java:52-53 | the application holds the given task list and storage |
| Dispatcher.Shinchan.Open | src/main/java/shinchan/Shinchan.java:59-72 | `new Shinchan()` holds a fresh list with exactly the `StartingTasks` of its storage, or the unchecked exception loading threw |
| Dispatcher.Shinchan.AddAndSave | src/main/java/shinchan/Shinchan.java:206-209 | appends the task, saves, and leaves the list, file and result `AddPlan` describes |
| Dispatcher.Shinchan.HandleTodo | src/main/java/shinchan/Shinchan.java:200-210 | the list, data file and result are exactly those of `TodoPlan` |
| Dispatcher.Shinchan.HandleDeadline | src/main/java/shinchan/Shinchan.java:218-238 | the list, data file and result are exactly those of `DeadlinePlan` |
| Dispatcher.Shinchan.HandleEvent | src/main/java/shinchan/Shinchan.java:246-269 | the list, data file and result are exactly those of `EventPlan` |
| Dispatcher.Shinchan.HandleOn | src/main/java/shinchan/Shinchan.java:277-296 | the result is that of `OnPlan`; nothing changes |
| Dispatcher.Shinchan.TasksOn | src/main/java/shinchan/Shinchan.java:285-293 | the loop collects exactly the `OnData` of the list, in list order |
| Dispatcher.Shinchan.HandleMark | src/main/java/shinchan/Shinchan.java:304-314 | the task values, data file and result are exactly those of `MarkPlan` with `done` |
| Dispatcher.Shinchan.HandleUnmark | src/main/java/shinchan/Shinchan.java:322-332 | the task values, data file and result are exactly those of `MarkPlan` with not `done` |
| Dispatcher.Shinchan.HandleDelete | src/main/java/shinchan/Shinchan.java:340-350 | the list, data file and result are exactly those of `DeletePlan` |
| Dispatcher.Shinchan.HandleFind | src/main/java/shinchan/Shinchan.java:368-375 | the result is that of `FindPlan`; nothing changes |
| Dispatcher.Shinchan.HandleInput | src/main/java/shinchan/Shinchan.java:149-192 | the list, data file and result are exactly those of the line's plan: empty line refused, then the command word's handler |
| Dispatcher.Shinchan.HandleChange | src/main/java/shinchan/Shinchan.java:156-183 | for `todo`, `deadline`, `event`, `mark`, `unmark` and `delete`, the list, data file and result are exactly those of the line's plan |
| Dispatcher.Shinchan.HandleQuery | src/main/java/shinchan/Shinchan.java:166-188 | for `find`, `on`, `list`, `bye` and any other word, the plan never changes the list and the result is its outcome: `bye` answers `Bye` and an unknown word is refused |

## Left out

- Console and GUI output is not modelled. `Ui` printing, `MainWindow`, `DialogBox` and `Main` are replaced by the returned `Reply` or failure, so the on-screen wording of lists and confirmations is not part of the model.
- `getResponse`, `capturePrintedOutput`, `getWelcomeMessage`, `run`, `main` and the `isExit` field are I/O plumbing and are not modelled. The boolean `handleInput` returns is `Exits` of its result.
- The file system is abstract. A data file is its sequence of lines, or `None` when missing. Whether it can be read or written is a flag on `Storage`. Not modelled: the file path, `mkdirs`, line-break handling inside descriptions, an `IOException` part-way through reading, and partly written files.
- The wall clock read by `getUpcomingDeadlines` is the parameter `now`. The model has no `remind` command, because `handleInput` has no `remind` case.
- Case mapping is ASCII only. `MMM` is English month names and `a` is English AM/PM. Other locales and full Unicode `toLowerCase` are not modelled.
- Date-times are at one-second precision. Nanoseconds and fractional seconds in the ISO text are not modelled.
- `Calendar.IsoDateTimeRoundTrip`: claimed for years within ±999,999,999, the range of `LocalDate`. The model's `Date` has no year bound of its own, so the round trips require `YearInRange`.
- `Parser.ParseDateTime`: reads exactly four unsigned year digits. java.time's `yyyy` field also accepts a year of more than four digits when it carries a leading `+`, such as `+10000-01-01 1800`; such lines are refused here. An unsigned five-digit year is refused by both.
- `Parser.ParseInt`: reads ASCII digits only. `Integer.parseInt` also accepts the other Unicode decimal digits, such as the fullwidth `２`, which the model refuses.
- `Parser.ParsedTextIsDigits`: states that a parsed number is ASCII digits, for the same reason as `Parser.ParseInt`.
- `Parser.ParseTaskIndex`: refuses a task number written in non-ASCII decimal digits, which `Integer.parseInt` would accept.
- `Parser.TaskIndexRejectsNonDigit`: counts every non-ASCII character as a non-digit, including Unicode decimal digits that `Integer.parseInt` accepts.
- `Persistence.SaveLoadRoundTrip`: only claimed for storable tasks: a non-empty description without ` | ` or a trailing ` |`, and years within ±999,999,999. Descriptions with a line break are not modelled.
- `Tasks.Task.MarkAsDone`: Java assertions are taken to be off, as they are by default. With `-ea`, marking a done task again would throw an `AssertionError`, and so would unmarking a task that is not done.
- `Tasks.Task.Events`: the `end not before start` assertion is likewise off. It would fail under `-ea`.
- `Dispatcher.Shinchan.Open`: stands for the constructor `new Shinchan()`, which needs to report an unchecked exception from `load`. The exception shown by `ui.showError` is dropped.
- `TaskList.asUnmodifiableList`/`asMutableList`, and the getters `getDescription`, `isDone`, `getDueDateTime`, `getStartDateTime` and `getEndDateTime`, are direct reads of the fields.
- `TaskList.get` and `size` are reads of the sequence; their meaning is stated through `TaskLists.TaskList.Add` and `Remove`.
- `Task.toString` is `Render` of the task's value. Its shape is stated by `Tasks.RenderLayout` and `Tasks.RenderReadsBack`.
- `formatTask`'s "Unknown task type." branch cannot be reached, because every task is a todo, a deadline or an event.
- The default-package `Shinchan.java`, `Events.java` and `Deadlines.java` are a superseded version built on classes that are not part of this model.
