/**
 * Tasks: a task has a description fixed at creation, a done flag that
 * `markAsDone` / `markAsUndone` change in place, and a kind: a todo, a
 * deadline with a due date-time, or an event with a start and an end.
 * `TaskData` is the value a task holds at one moment; rendering, the
 * storage line format and the dispatcher's specification work on it.
 */
module Tasks {
  import opened Results
  import opened Text
  import opened Calendar
  import opened TimeFormat

  /** What distinguishes `Todos`, `Deadlines` and `Events`. */
  datatype Detail =
    | Todo
    | Deadline(dueDateTime: DateTime)
    | Event(startDateTime: DateTime, endDateTime: DateTime)

  /** A task's description, done flag and kind at one moment. */
  datatype TaskData = TaskData(description: string, isDone: bool, detail: Detail)

  /** An event whose end is not before its start; the `Events` constructor only asserts this. */
  predicate WellFormed(d: Detail) {
    d.Event? ==> !DateTimeBefore(d.endDateTime, d.startDateTime)
  }

  class Task {
    const description: string
    const detail: Detail
    var isDone: bool

    /** `new Todos(description)`. */
    constructor Todos(description: string)
      ensures this.description == description && detail == Todo && !isDone
    {
      this.description := description;
      this.detail := Todo;
      this.isDone := false;
    }

    /** `new Deadlines(description, dueDateTime)`. */
    constructor Deadlines(description: string, dueDateTime: DateTime)
      ensures this.description == description && detail == Deadline(dueDateTime) && !isDone
    {
      this.description := description;
      this.detail := Deadline(dueDateTime);
      this.isDone := false;
    }

    /**
     * `new Events(description, start, end)`. The end-not-before-start check
     * is a Java `assert`, off unless the JVM runs with `-ea`, so any pair is
     * accepted here.
     */
    constructor Events(description: string, startDateTime: DateTime, endDateTime: DateTime)
      ensures this.description == description && detail == Event(startDateTime, endDateTime) && !isDone
    {
      this.description := description;
      this.detail := Event(startDateTime, endDateTime);
      this.isDone := false;
    }

    /** The task's current value. */
    function Data(): TaskData
      reads this
    {
      TaskData(description, isDone, detail)
    }

    /**
     * `markAsDone`. The "not already done" expectation is a Java `assert`,
     * so marking a done task again simply leaves it done.
     */
    method MarkAsDone()
      modifies this
      ensures isDone
    {
      isDone := true;
    }

    /** `markAsUndone`; as with `markAsDone`, the prior state is not checked. */
    method MarkAsUndone()
      modifies this
      ensures !isDone
    {
      isDone := false;
    }

    /** `getStatusIcon`. */
    function GetStatusIcon(): (r: string)
      reads this
      ensures |r| == 1 && (r == "X" <==> isDone) && (r == " " <==> !isDone)
    {
      StatusIcon(isDone)
    }

    /** `toString`, dispatched on the task's kind. */
    function ToString(): string
      reads this
    {
      Render(Data())
    }
  }

  /** The task values of a sequence of tasks, in order. */
  function Values(ts: seq<Task>): (r: seq<TaskData>)
    reads ts
    ensures |r| == |ts|
  {
    seq(|ts|, i requires 0 <= i < |ts| reads ts => ts[i].Data())
  }

  /** Entry `i` of the values is the value of task `i`. */
  lemma ValuesAt(ts: seq<Task>)
    ensures forall i :: 0 <= i < |ts| ==> Values(ts)[i] == ts[i].Data()
  {
  }

  /** The values of a concatenation are the concatenated values. */
  lemma ValuesOfConcat(a: seq<Task>, b: seq<Task>)
    ensures Values(a + b) == Values(a) + Values(b)
  {
    forall i | 0 <= i < |a + b| ensures Values(a + b)[i] == (Values(a) + Values(b))[i] {
      if i >= |a| {
        assert (a + b)[i] == b[i - |a|];
      }
    }
  }

  /** The values of one more task from the front of a list. */
  lemma ValuesOfPrefix(ts: seq<Task>, i: int)
    requires 0 <= i < |ts|
    ensures Values(ts[..i + 1]) == Values(ts[..i]) + [ts[i].Data()]
  {
    assert ts[..i + 1] == ts[..i] + [ts[i]];
    ValuesOfConcat(ts[..i], [ts[i]]);
  }

  /** The values of a list with one more task at its end. */
  lemma ValuesOfSnoc(ts: seq<Task>, t: Task)
    ensures Values(ts + [t]) == Values(ts) + [t.Data()]
  {
    ValuesOfConcat(ts, [t]);
  }

  /** The values of the tasks before and from position `i` are the values before and from `i`. */
  lemma ValuesOfSplit(ts: seq<Task>, i: int)
    requires 0 <= i <= |ts|
    ensures Values(ts)[..i] == Values(ts[..i]) && Values(ts)[i..] == Values(ts[i..])
  {
    assert ts == ts[..i] + ts[i..];
    ValuesOfConcat(ts[..i], ts[i..]);
  }

  /** The values of a list are those before `i`, the value of task `i`, and those after it. */
  lemma ValuesAround(ts: seq<Task>, i: int)
    requires 0 <= i < |ts|
    ensures Values(ts) == Values(ts[..i]) + [ts[i].Data()] + Values(ts[i + 1..])
  {
    assert ts == ts[..i] + [ts[i]] + ts[i + 1..];
    ValuesOfConcat(ts[..i] + [ts[i]], ts[i + 1..]);
    ValuesOfSnoc(ts[..i], ts[i]);
  }

  /** No task object appears twice. */
  predicate Distinct(ts: seq<Task>) {
    forall i, j :: 0 <= i < j < |ts| ==> ts[i] != ts[j]
  }

  /** Appending a task object not yet in the list keeps the objects distinct. */
  lemma DistinctSnoc(ts: seq<Task>, t: Task)
    requires Distinct(ts) && t !in ts
    ensures Distinct(ts + [t])
  {
  }

  // ---------------------------------------------------------------- dates

  /** `Deadlines.getDueDate`: the day whose span holds the due moment. */
  function DueDate(due: DateTime): (r: Date)
    ensures !DateTimeBefore(due, StartOfDay(r)) && DateTimeBefore(due, StartOfDay(NextDay(r)))
  {
    DateOf(due)
  }

  /** `Events.occursOn`: the date lies from the start date to the end date, both included. */
  predicate OccursOn(startDateTime: DateTime, endDateTime: DateTime, date: Date) {
    !DateBefore(date, startDateTime.date) && !DateBefore(endDateTime.date, date)
  }

  /**
   * An event occurs on a day exactly when it starts before that day is over
   * and ends no earlier than the day begins: the day and the event overlap.
   */
  lemma OccursOnOverlap(start: DateTime, end: DateTime, date: Date)
    ensures OccursOn(start, end, date)
        <==> DateTimeBefore(start, StartOfDay(NextDay(date))) && !DateTimeBefore(end, StartOfDay(date))
  {
    BeforeNextDay(start, date);
  }

  /** A well-formed event occurs on its first and last day and on every day between. */
  lemma OccursOnSpan(start: DateTime, end: DateTime, date: Date)
    requires WellFormed(Event(start, end))
    requires !DateBefore(date, start.date) && !DateBefore(end.date, date)
    ensures OccursOn(start, end, start.date) && OccursOn(start, end, end.date) && OccursOn(start, end, date)
  {
    DateOfNotBefore(start, end);
  }

  /** An event does not occur on the day after its end nor on the day before its start. */
  lemma OccursOnOutside(start: DateTime, end: DateTime)
    ensures !OccursOn(start, end, NextDay(end.date))
    ensures !OccursOn(start, end, PrevDay(start.date))
  {
  }

  // ---------------------------------------------------------------- rendering

  /** `getStatusIcon`: `X` when done, a blank otherwise. */
  function StatusIcon(isDone: bool): (r: string)
    ensures |r| == 1 && (r == "X" <==> isDone) && (r == " " <==> !isDone)
  {
    if isDone then "X" else " "
  }

  function Tag(d: Detail): (r: string)
    ensures |r| == 3
  {
    match d
    case Todo => "[T]"
    case Deadline(_) => "[D]"
    case Event(_, _) => "[E]"
  }

  /** A moment as the task texts show it: `MMM dd yyyy` and the 12-hour time. */
  function Stamp(t: DateTime): string {
    DisplayDate(t.date) + " " + FormatAmPm(t)
  }

  /** What follows the description: nothing, ` (by: …)` or ` (from: … to: …)`. */
  function Suffix(d: Detail): string {
    match d
    case Todo => ""
    case Deadline(due) => " (by: " + Stamp(due) + ")"
    case Event(start, end) => " (from: " + Stamp(start) + " to: " + Stamp(end) + ")"
  }

  /** `toString` of each kind: the kind's tag, `[icon] description`, then the kind's suffix. */
  function Render(t: TaskData): string {
    Tag(t.detail) + "[" + StatusIcon(t.isDone) + "] " + t.description + Suffix(t.detail)
  }

  // ---------------------------------------------------------------- reading a rendering back

  /** The moment shown, with the seconds the rendering leaves out set to zero. */
  function Minute(t: DateTime): DateTime { t.(second := 0) }

  function WithoutSeconds(d: Detail): Detail {
    match d
    case Todo => Todo
    case Deadline(due) => Deadline(Minute(due))
    case Event(start, end) => Event(Minute(start), Minute(end))
  }

  predicate StartsWith(s: string, p: string) { |p| <= |s| && s[..|p|] == p }

  /** `p + rest` starts with `p`, and `rest` is what follows it. */
  lemma StartsWithConcat(p: string, rest: string)
    ensures StartsWith(p + rest, p) && (p + rest)[|p|..] == rest
  {
    assert (p + rest)[..|p|] == p;
  }

  /** Reads a stamp at the front of `s`: the moment it shows, to the minute, and the stamp's length. */
  function ReadStamp(s: string): Option<(DateTime, nat)> {
    if |s| < 12 || s[11] != ' ' then None
    else
      match (ParseDisplayDate(s[..11]), IndexOf(s[12..], "m"))
      case (Some(d), Some(k)) =>
        (match ParseAmPm(s[12..12 + k + 1])
         case Some((h, mi)) => Some((DateTime(d, h, mi, 0), 12 + k + 1))
         case None => None)
      case _ => None
  }

  /** Reads a stamp followed by `close` and nothing else. */
  function ReadLastStamp(s: string, close: string): Option<DateTime> {
    match ReadStamp(s)
    case Some((t, n)) => if s[n..] == close then Some(t) else None
    case None => None
  }

  /** Reads the text after the description back into the kind of task it describes. */
  function ReadSuffix(s: string): Option<Detail> {
    if s == [] then Some(Todo)
    else if StartsWith(s, " (from: ") then ReadSpan(s[8..])
    else if StartsWith(s, " (by: ") then
      match ReadLastStamp(s[6..], ")")
      case Some(due) => Some(Deadline(due))
      case None => None
    else None
  }

  /** Reads `start to: end)` into an event. */
  function ReadSpan(s: string): Option<Detail> {
    match ReadStamp(s)
    case Some((start, n)) =>
      if StartsWith(s[n..], " to: ") then
        match ReadLastStamp(s[n + 5..], ")")
        case Some(end) => Some(Event(start, end))
        case None => None
      else None
    case None => None
  }

  /** Dates the `yyyy` display pattern writes without an era and in four digits. */
  predicate Displayable(d: Detail) {
    match d
    case Todo => true
    case Deadline(due) => 1 <= due.date.year <= 9999
    case Event(start, end) => 1 <= start.date.year <= 9999 && 1 <= end.date.year <= 9999
  }

  lemma {:induction false} FormatAmPmEndsAtFirstM(t: DateTime, rest: string)
    ensures IndexOf(FormatAmPm(t) + rest, "m") == Some(|FormatAmPm(t)| - 1)
  {
    Pow10Values();
    var h := NatToString(Hour12(t.hour));
    var tail := if t.minute == 0 then "" else ":" + Digits(t.minute, 2);
    var r := FormatAmPm(t);
    assert r == (h + tail) + Meridiem(t.hour);
    var s := r + rest;
    assert s[|r| - 1..|r|] == "m";
    forall j | 0 <= j < |r| - 1 ensures !OccursAt(s, "m", j) {
      assert s[j..j + 1] == [r[j]];
      if j < |h| {
        assert r[j] == h[j] && IsDigit(h[j]);
      } else if j < |h + tail| {
        assert r[j] == tail[j - |h|];
        if j > |h| {
          assert r[j] == Digits(t.minute, 2)[j - |h| - 1];
        }
      } else {
        assert r[j] == Meridiem(t.hour)[0];
      }
    }
    IndexOfIs(s, "m", |r| - 1);
  }

  /** A stamp at the front of any text reads back as its moment, to the minute. */
  lemma ReadStampOf(t: DateTime, rest: string)
    requires 1 <= t.date.year <= 9999
    ensures ReadStamp(Stamp(t) + rest) == Some((Minute(t), |Stamp(t)|))
  {
    var date, time := DisplayDate(t.date), FormatAmPm(t);
    Pow10Values();
    assert |date| == 11;
    assert Stamp(t) + rest == date + " " + time + rest;
    DisplayDateRoundTrip(t.date);
    FormatAmPmEndsAtFirstM(t, rest);
    FormatAmPmRoundTrip(t);
    ReadStampAt(date, time, rest, t.date, t.hour, t.minute);
  }

  /** Reading a date of eleven characters, a space and a clock time whose first `m` ends it. */
  lemma ReadStampAt(date: string, time: string, rest: string, d: Date, h: Hour, mi: Sixty)
    requires |date| == 11 && ParseDisplayDate(date) == Some(d)
    requires |time| >= 1 && IndexOf(time + rest, "m") == Some(|time| - 1)
    requires ParseAmPm(time) == Some((h, mi))
    ensures ReadStamp(date + " " + time + rest) == Some((DateTime(d, h, mi, 0), 12 + |time|))
  {
    var s := date + " " + time + rest;
    assert s[..11] == date;
    assert s[12..] == time + rest;
    assert s[12..12 + |time|] == time;
  }

  lemma ReadLastStampOf(t: DateTime, close: string)
    requires 1 <= t.date.year <= 9999
    ensures ReadLastStamp(Stamp(t) + close, close) == Some(Minute(t))
  {
    ReadStampOf(t, close);
    assert (Stamp(t) + close)[|Stamp(t)|..] == close;
  }

  lemma DeadlineSuffixRoundTrip(due: DateTime)
    requires 1 <= due.date.year <= 9999
    ensures ReadSuffix(Suffix(Deadline(due))) == Some(Deadline(Minute(due)))
  {
    var s := Suffix(Deadline(due));
    assert s[2] == 'b';
    NotSpanSuffix(s);
    assert StartsWith(s, " (by: ");
    assert s[6..] == Stamp(due) + ")";
    ReadLastStampOf(due, ")");
  }

  /** Only a text whose third character is `f` can start like an event's suffix. */
  lemma NotSpanSuffix(s: string)
    requires |s| > 2 && s[2] != 'f'
    ensures !StartsWith(s, " (from: ")
  {
    if |s| >= 8 {
      assert s[..8][2] == s[2];
    }
  }

  lemma ReadSpanOf(a: string, b: string, start: DateTime, end: DateTime)
    requires ReadStamp(a + (" to: " + (b + ")"))) == Some((start, |a|))
    requires ReadLastStamp(b + ")", ")") == Some(end)
    ensures ReadSpan(a + (" to: " + (b + ")"))) == Some(Event(start, end))
  {
    var tail := " to: " + (b + ")");
    var s := a + tail;
    assert s[|a|..] == tail;
    assert StartsWith(tail, " to: ");
    assert s[|a| + 5..] == b + ")";
  }

  lemma ReadSuffixOfSpan(s: string)
    requires StartsWith(s, " (from: ")
    ensures ReadSuffix(s) == ReadSpan(s[8..])
  {
  }

  /** Concatenation regrouped to the right. */
  lemma Regroup(p: string, a: string, q: string, b: string, r: string)
    ensures p + a + q + b + r == p + (a + (q + (b + r)))
  {
  }

  /** After ` (from: ` comes the span of an event. */
  lemma ReadSuffixOfFrom(x: string)
    ensures ReadSuffix(" (from: " + x) == ReadSpan(x)
  {
    StartsWithConcat(" (from: ", x);
    ReadSuffixOfSpan(" (from: " + x);
  }

  lemma ReadEventSuffix(a: string, b: string, start: DateTime, end: DateTime)
    requires ReadStamp(a + (" to: " + (b + ")"))) == Some((start, |a|))
    requires ReadLastStamp(b + ")", ")") == Some(end)
    ensures ReadSuffix(" (from: " + a + " to: " + b + ")") == Some(Event(start, end))
  {
    var tail := a + (" to: " + (b + ")"));
    Regroup(" (from: ", a, " to: ", b, ")");
    ReadSuffixOfFrom(tail);
    ReadSpanOf(a, b, start, end);
  }

  lemma EventSuffixRoundTrip(start: DateTime, end: DateTime)
    requires 1 <= start.date.year <= 9999 && 1 <= end.date.year <= 9999
    ensures ReadSuffix(Suffix(Event(start, end))) == Some(Event(Minute(start), Minute(end)))
  {
    ReadStampOf(start, " to: " + (Stamp(end) + ")"));
    ReadLastStampOf(end, ")");
    ReadEventSuffix(Stamp(start), Stamp(end), Minute(start), Minute(end));
  }

  /** The text after the description reads back as the task's kind, less the seconds. */
  lemma SuffixRoundTrip(d: Detail)
    requires Displayable(d)
    ensures ReadSuffix(Suffix(d)) == Some(WithoutSeconds(d))
  {
    match d
    case Todo =>
    case Deadline(due) => DeadlineSuffixRoundTrip(due);
    case Event(start, end) => EventSuffixRoundTrip(start, end);
  }

  /** Where each part of a `tag[icon] description suffix` line sits. */
  lemma {:induction false} LineLayout(tag: string, icon: string, description: string, suffix: string)
    requires |tag| == 3 && |icon| == 1
    ensures var s := tag + "[" + icon + "] " + description + suffix; var n := |description|;
      |s| >= 7 + n && s[..3] == tag && s[3..7] == "[" + icon + "] " && s[4] == icon[0]
      && s[7..7 + n] == description && s[7 + n..] == suffix
  {
    var s := tag + "[" + icon + "] " + description + suffix;
    var head := tag + "[" + icon + "] ";
    var front := head + description;
    assert s == front + suffix;
    assert |head| == 7;
    assert s[..|front|] == front;
    assert s[|front|..] == suffix;
  }

  /**
   * A rendering shows the kind's tag, `X` exactly when the task is done and
   * the description unchanged, followed by the kind's suffix.
   */
  lemma RenderLayout(t: TaskData)
    ensures var s := Render(t); var n := |t.description|;
      |s| >= 7 + n && s[..3] == Tag(t.detail)
      && s[3..7] == "[" + StatusIcon(t.isDone) + "] "
      && (s[4] == 'X' <==> t.isDone)
      && s[7..7 + n] == t.description
      && s[7 + n..] == Suffix(t.detail)
  {
    LineLayout(Tag(t.detail), StatusIcon(t.isDone), t.description, Suffix(t.detail));
  }

  /**
   * After the description, a rendering holds the due date-time or the
   * event's span, readable back to the minute.
   */
  lemma RenderReadsBack(t: TaskData)
    requires Displayable(t.detail)
    ensures ReadSuffix(Render(t)[7 + |t.description|..]) == Some(WithoutSeconds(t.detail))
  {
    RenderLayout(t);
    SuffixRoundTrip(t.detail);
  }

  /** A fresh todo renders as `[T][ ] ` and its description. */
  lemma FreshTodoRendering(description: string)
    ensures Render(TaskData(description, false, Todo)) == "[T][ ] " + description
  {
  }
}
