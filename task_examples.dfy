/**
 * The worked examples the task classes are checked against: rendering of
 * a deadline and an event with concrete dates, the days an event covers,
 * marking a task back and forth, and adding to and removing from a list.
 */
module TaskExamples {
  import opened Calendar
  import opened TimeFormat
  import opened Tasks
  import opened TaskLists

  /** An event from 2026-01-10 to 2026-01-12 covers the 10th, 11th and 12th, and not the 13th. */
  lemma OccursOnExample(start: DateTime, end: DateTime)
    requires start.date == CalendarDate(2026, 1, 10) && end.date == CalendarDate(2026, 1, 12)
    ensures OccursOn(start, end, CalendarDate(2026, 1, 10))
    ensures OccursOn(start, end, CalendarDate(2026, 1, 11))
    ensures OccursOn(start, end, CalendarDate(2026, 1, 12))
    ensures !OccursOn(start, end, NextDay(end.date)) && NextDay(end.date) == CalendarDate(2026, 1, 13)
  {
  }

  lemma StampOf(t: DateTime, date: string, time: string)
    requires DisplayDate(t.date) == date && FormatAmPm(t) == time
    ensures Stamp(t) == date + " " + time
  {
  }

  lemma DateText(d: Date, day: int, text: string)
    requires d.year == 2026 && d.month == 1 && d.day == day
    requires (day == 10 && text == "Jan 10 2026") || (day == 12 && text == "Jan 12 2026")
          || (day == 15 && text == "Jan 15 2026")
    ensures DisplayDate(d) == text
  {
    DisplayDateExamples(d);
  }

  lemma TimeText(t: DateTime, text: string)
    requires (t.hour == 9 && t.minute == 0 && text == "9am") || (t.hour == 18 && t.minute == 0 && text == "6pm")
    ensures FormatAmPm(t) == text
  {
    FormatAmPmMoreExamples(t);
  }

  lemma DueStampExample(t: DateTime)
    requires t.date.year == 2026 && t.date.month == 1 && t.date.day == 15 && t.hour == 18 && t.minute == 0
    ensures Stamp(t) == "Jan 15 2026 6pm"
  {
    DateText(t.date, 15, "Jan 15 2026");
    TimeText(t, "6pm");
    StampOf(t, "Jan 15 2026", "6pm");
  }

  lemma StartStampExample(t: DateTime)
    requires t.date.year == 2026 && t.date.month == 1 && t.date.day == 10 && t.hour == 9 && t.minute == 0
    ensures Stamp(t) == "Jan 10 2026 9am"
  {
    DateText(t.date, 10, "Jan 10 2026");
    TimeText(t, "9am");
    StampOf(t, "Jan 10 2026", "9am");
  }

  lemma EndStampExample(t: DateTime)
    requires t.date.year == 2026 && t.date.month == 1 && t.date.day == 12 && t.hour == 18 && t.minute == 0
    ensures Stamp(t) == "Jan 12 2026 6pm"
  {
    DateText(t.date, 12, "Jan 12 2026");
    TimeText(t, "6pm");
    StampOf(t, "Jan 12 2026", "6pm");
  }

  lemma DeadlineSuffix(due: DateTime, stamp: string)
    requires Stamp(due) == stamp
    ensures Suffix(Deadline(due)) == " (by: " + stamp + ")"
  {
  }

  lemma EventSuffix(start: DateTime, end: DateTime, from: string, to: string)
    requires Stamp(start) == from && Stamp(end) == to
    ensures Suffix(Event(start, end)) == " (from: " + from + " to: " + to + ")"
  {
  }

  /** A deadline due 2026-01-15 18:00 shows `(by: Jan 15 2026 6pm)`. */
  lemma DeadlineRenderingExample(due: DateTime)
    requires due.date.year == 2026 && due.date.month == 1 && due.date.day == 15 && due.hour == 18 && due.minute == 0
    ensures Suffix(Deadline(due)) == " (by: " + "Jan 15 2026 6pm" + ")"
  {
    DueStampExample(due);
    DeadlineSuffix(due, "Jan 15 2026 6pm");
  }

  /** An event from 2026-01-10 09:00 to 2026-01-12 18:00 shows both stamps. */
  lemma EventRenderingExample(start: DateTime, end: DateTime)
    requires start.date.year == 2026 && start.date.month == 1 && start.date.day == 10 && start.hour == 9 && start.minute == 0
    requires end.date.year == 2026 && end.date.month == 1 && end.date.day == 12 && end.hour == 18 && end.minute == 0
    ensures Suffix(Event(start, end)) == " (from: " + "Jan 10 2026 9am" + " to: " + "Jan 12 2026 6pm" + ")"
  {
    StartStampExample(start);
    EndStampExample(end);
    EventSuffix(start, end, "Jan 10 2026 9am", "Jan 12 2026 6pm");
  }

  /** A deadline due 2026-01-15 18:00 falls on 2026-01-15. */
  lemma DueDateExample(due: DateTime)
    requires due.date == CalendarDate(2026, 1, 15) && due.hour == 18 && due.minute == 0
    ensures DueDate(due) == CalendarDate(2026, 1, 15)
  {
  }

  /** A new todo is not done; marking it makes it done, and unmarking makes it not done again. */
  method MarkAndUnmark() returns (created: bool, marked: bool, unmarked: bool)
    ensures !created && marked && !unmarked
  {
    var task := new Task.Todos("read");
    created := task.isDone;
    task.MarkAsDone();
    marked := task.isDone;
    task.MarkAsUndone();
    unmarked := task.isDone;
  }

  /** Adding one task to an empty list gives a list of one holding that task. */
  method AddToEmpty() returns (size: nat, first: TaskData)
    ensures size == 1 && first == TaskData("read book", false, Todo)
  {
    var list := new TaskList();
    var task := new Task.Todos("read book");
    list.Add(task);
    size := list.Size();
    first := list.Get(0).Data();
  }

  /** Removing the first of two tasks returns it and leaves the second alone in the list. */
  method RemoveFirstOfTwo() returns (removed: TaskData, size: nat, first: TaskData)
    ensures removed == TaskData("a", false, Todo) && size == 1 && first == TaskData("b", false, Todo)
  {
    var list := new TaskList();
    var a := new Task.Todos("a");
    var b := new Task.Todos("b");
    list.Add(a);
    list.Add(b);
    var task := list.Remove(0);
    removed := task.Data();
    size := list.Size();
    first := list.Get(0).Data();
  }
}
