/**
 * Persistence: the data file's line format and the storage object that
 * reads and writes it. A task is one line of ` | `-separated fields:
 * `T | s | description`, `D | s | description | due` or
 * `E | s | description | start | end`, where `s` is `1` for a done task
 * and `0` otherwise and the date-times are ISO 8601 local date-times as
 * `LocalDateTime.toString` writes them. The file is modelled as its
 * sequence of lines; `None` stands for a file that does not exist.
 */
module Persistence {
  import opened Results
  import opened Text
  import opened Calendar
  import opened Tasks

  /** The field separator, matched literally by `split(" \\| ")`. */
  const Sep := " | "

  const CorruptedMessage := "Corrupted data file."
  const LoadErrorMessage := "Error loading data from file."
  const SaveErrorMessage := "Error saving data to file."

  // ---------------------------------------------------------------- writing a line

  /** `getStatus`: `1` for a done task, `0` otherwise. */
  function Status(isDone: bool): (r: string)
    ensures |r| == 1 && (r == "1" <==> isDone) && (r == "0" <==> !isDone)
  {
    if isDone then "1" else "0"
  }

  /** `formatTask`: the kind letter, the status, the description, then the kind's date-times. */
  function FormatTask(t: TaskData): string {
    match t.detail
    case Todo => "T" + Sep + Status(t.isDone) + Sep + t.description
    case Deadline(due) => "D" + Sep + Status(t.isDone) + Sep + t.description + Sep + IsoDateTime(due)
    case Event(start, end) =>
      "E" + Sep + Status(t.isDone) + Sep + t.description + Sep + IsoDateTime(start) + Sep + IsoDateTime(end)
  }

  /** The lines `save` writes: one per task, in list order. */
  function SaveLines(ds: seq<TaskData>): (lines: seq<string>)
    ensures |lines| == |ds| && forall i :: 0 <= i < |ds| ==> lines[i] == FormatTask(ds[i])
  {
    seq(|ds|, i requires 0 <= i < |ds| => FormatTask(ds[i]))
  }

  // ---------------------------------------------------------------- reading a line

  /** The date-time in a date-time field; a malformed one makes `LocalDateTime.parse` throw. */
  function ParseStamp(field: string): (r: Result<DateTime>)
    ensures r.Ok? || r == Crash(DateTimeParse)
  {
    match ParseIsoDateTime(field)
    case Some(t) => Ok(t)
    case None => Crash(DateTimeParse)
  }

  /** The kind a line's fields describe, checking the field count each kind needs. */
  function ParseDetail(parts: seq<string>): (r: Result<Detail>)
    requires |parts| >= 3
    ensures r.Fail? ==> r.message == CorruptedMessage
  {
    if parts[0] == "T" then Ok(Todo)
    else if parts[0] == "D" then
      if |parts| < 4 then Fail(CorruptedMessage)
      else
        var due := ParseStamp(parts[3]);
        if due.Ok? then Ok(Deadline(due.value)) else Propagate(due)
    else if parts[0] == "E" then
      if |parts| < 5 then Fail(CorruptedMessage)
      else
        match (ParseStamp(parts[3]), ParseStamp(parts[4]))
        case (Ok(start), Ok(end)) => Ok(Event(start, end))
        case _ => Crash(DateTimeParse)
    else Fail(CorruptedMessage)
  }

  /**
   * What `parseTask` followed by `restoreStatus` makes of a line: fewer than
   * three fields, an unknown kind letter, or too few fields for the kind is
   * "Corrupted data file."; a malformed date-time is an unchecked
   * `DateTimeParseException`; otherwise the task, done exactly when the
   * status field is `1`.
   */
  function ParseTaskData(line: string): (r: Result<TaskData>)
    ensures r.Fail? ==> r.message == CorruptedMessage
    ensures r.Crash? ==> r.fault == DateTimeParse
  {
    var parts := Split(line, Sep);
    if |parts| < 3 then Fail(CorruptedMessage)
    else
      var detail := ParseDetail(parts);
      if detail.Ok? then Ok(TaskData(parts[2], parts[1] == "1", detail.value)) else Propagate(detail)
  }

  /** `restoreStatus`: a status of `1` marks the task done; anything else leaves it as it is. */
  method RestoreStatus(task: Task, status: string)
    modifies task
    ensures task.isDone == (old(task.isDone) || status == "1")
  {
    if status == "1" {
      task.MarkAsDone();
    }
  }

  /** `parseTask`: builds a fresh task of the line's kind, then restores its status. */
  method ParseTask(line: string) returns (r: Result<Task>)
    ensures ParseTaskData(line).Ok? ==> r.Ok? && fresh(r.value) && r.value.Data() == ParseTaskData(line).value
    ensures !ParseTaskData(line).Ok? ==> r == Propagate(ParseTaskData(line))
  {
    var parts := Split(line, Sep);
    if |parts| < 3 {
      return Fail(CorruptedMessage);
    }
    var task: Task;
    if parts[0] == "T" {
      task := new Task.Todos(parts[2]);
    } else if parts[0] == "D" {
      if |parts| < 4 {
        return Fail(CorruptedMessage);
      }
      var due := ParseStamp(parts[3]);
      if !due.Ok? {
        return Crash(DateTimeParse);
      }
      task := new Task.Deadlines(parts[2], due.value);
    } else if parts[0] == "E" {
      if |parts| < 5 {
        return Fail(CorruptedMessage);
      }
      var start := ParseStamp(parts[3]);
      if !start.Ok? {
        return Crash(DateTimeParse);
      }
      var end := ParseStamp(parts[4]);
      if !end.Ok? {
        return Crash(DateTimeParse);
      }
      task := new Task.Events(parts[2], start.value, end.value);
    } else {
      return Fail(CorruptedMessage);
    }
    RestoreStatus(task, parts[1]);
    return Ok(task);
  }

  /** Field counts: exactly these lines are reported as corrupted. */
  lemma CorruptedExactly(line: string)
    ensures var parts := Split(line, Sep);
      ParseTaskData(line).Fail?
      <==> |parts| < 3 || (parts[0] != "T" && parts[0] != "D" && parts[0] != "E")
           || (parts[0] == "D" && |parts| < 4) || (parts[0] == "E" && |parts| < 5)
  {
  }

  /** A loaded task is done exactly when its status field is `1`. */
  lemma StatusRestored(line: string)
    requires ParseTaskData(line).Ok?
    ensures ParseTaskData(line).value.isDone <==> Split(line, Sep)[1] == "1"
  {
  }

  // ---------------------------------------------------------------- the round trip

  /** Fields joined by the separator. */
  function Join(fields: seq<string>): string
    requires fields != []
  {
    if |fields| == 1 then fields[0] else fields[0] + Sep + Join(fields[1..])
  }

  lemma JoinCons(fields: seq<string>)
    requires |fields| >= 2
    ensures Join(fields) == fields[0] + Sep + Join(fields[1..])
  {
  }

  /**
   * A field that reads back unchanged between separators: it holds no
   * separator, and it does not end in ` |`, which would combine with the
   * following separator's space into an earlier separator.
   */
  predicate FieldSafe(f: string) {
    !Contains(f, Sep) && !(|f| >= 2 && f[|f| - 2..] == " |")
  }

  /** After a safe field, the first separator is the one that follows it. */
  lemma SepAfterField(f: string, rest: string)
    requires FieldSafe(f)
    ensures IndexOf(f + Sep + rest, Sep) == Some(|f|)
  {
    var s := f + Sep + rest;
    assert s[|f|..|f| + 3] == Sep;
    forall j | 0 <= j < |f| ensures !OccursAt(s, Sep, j) {
      NoSepBefore(f, rest, j);
    }
    IndexOfIs(s, Sep, |f|);
  }

  lemma NoSepBefore(f: string, rest: string, j: nat)
    requires FieldSafe(f) && j < |f|
    ensures !OccursAt(f + Sep + rest, Sep, j)
  {
    var s := f + Sep + rest;
    if j + 3 <= |f| {
      assert s[j..j + 3] == f[j..j + 3];
      Absent(f, Sep, j);
    } else if j == |f| - 1 {
      assert s[j..j + 3][1] == s[j + 1] == ' ';
    } else {
      assert s[j..j + 3][..2] == f[|f| - 2..];
    }
  }

  /** Splitting joined safe fields gives back the fields. */
  lemma {:induction false} PiecesOfJoin(fields: seq<string>)
    requires fields != [] && forall i :: 0 <= i < |fields| ==> FieldSafe(fields[i])
    ensures Pieces(Join(fields), Sep) == fields
    decreases |fields|
  {
    if |fields| == 1 {
      assert IndexOf(fields[0], Sep) == None;
    } else {
      var rest := fields[1..];
      forall i | 0 <= i < |rest| ensures FieldSafe(rest[i]) {
        assert rest[i] == fields[i + 1];
      }
      JoinCons(fields);
      PiecesAfterField(fields[0], Join(rest));
      PiecesOfJoin(rest);
      assert fields == [fields[0]] + rest;
    }
  }

  /** A safe field and a separator in front of `rest` split off as one piece. */
  lemma PiecesAfterField(f: string, rest: string)
    requires FieldSafe(f)
    ensures Pieces(f + Sep + rest, Sep) == [f] + Pieces(rest, Sep)
  {
    SepAfterField(f, rest);
    var s := f + Sep + rest;
    assert s[..|f|] == f;
    assert s[|f| + 3..] == rest;
  }

  /** `split` on joined safe fields, the last one non-empty, gives back the fields. */
  lemma SplitOfJoin(fields: seq<string>)
    requires |fields| >= 2 && fields[|fields| - 1] != ""
    requires forall i :: 0 <= i < |fields| ==> FieldSafe(fields[i])
    ensures Split(Join(fields), Sep) == fields
  {
    PiecesOfJoin(fields);
    SepAfterField(fields[0], Join(fields[1..]));
  }

  /** A string without a space holds no separator and cannot end in ` |`. */
  lemma NoSpaceSafe(s: string)
    requires ' ' !in s
    ensures FieldSafe(s)
  {
    forall j | 0 <= j ensures !OccursAt(s, Sep, j) {
      if j + 3 <= |s| {
        assert s[j..j + 3][0] == s[j];
      }
    }
    NoOccurrence(s, Sep);
    if |s| >= 2 {
      assert s[|s| - 2..][0] == s[|s| - 2];
    }
  }

  lemma NoSpaceInDigits(n: nat, width: nat)
    requires n < Pow10(width)
    ensures ' ' !in Digits(n, width)
  {
  }

  lemma NoSpaceInDigitText(s: string)
    requires AllDigits(s)
    ensures ' ' !in s
  {
    forall i | 0 <= i < |s|
      ensures s[i] != ' '
    {
      assert IsDigit(s[i]);
    }
  }

  /** The text of a year is a sign, or nothing, before digits: no space. */
  lemma YearTextNoSpace(year: int)
    ensures ' ' !in YearText(year)
  {
    var a := if year < 0 then -year else year;
    var digits := if a < 10000 then Digits(a, 4) else NatToString(a);
    NoSpaceInDigitText(digits);
    assert YearText(year) == (if year > 9999 then "+" else if year < 0 then "-" else "") + digits;
  }

  /** ISO text of a date-time is non-empty and holds no space. */
  lemma IsoDateTimeNoSpace(t: DateTime)
    ensures IsoDateTime(t) != "" && ' ' !in IsoDateTime(t)
  {
    Pow10Values();
    var y, mo, d := YearText(t.date.year), Digits(t.date.month, 2), Digits(t.date.day, 2);
    var h, mi, sec := Digits(t.hour, 2), Digits(t.minute, 2), Digits(t.second, 2);
    YearTextNoSpace(t.date.year);
    NoSpaceInDigits(t.date.month, 2);
    NoSpaceInDigits(t.date.day, 2);
    NoSpaceInDigits(t.hour, 2);
    NoSpaceInDigits(t.minute, 2);
    NoSpaceInDigits(t.second, 2);
    var date := y + "-" + mo + "-" + d;
    assert IsoDate(t.date) == date;
    assert ' ' !in date;
    var tail := if t.second != 0 then ":" + sec else "";
    assert ' ' !in tail;
    assert IsoDateTime(t) == date + "T" + h + ":" + mi + tail;
  }

  /** A date-time field that `save` writes and `load` reads back unchanged. */
  lemma StampField(t: DateTime)
    requires YearInRange(t.date)
    ensures FieldSafe(IsoDateTime(t)) && IsoDateTime(t) != "" && ParseStamp(IsoDateTime(t)) == Ok(t)
  {
    IsoDateTimeNoSpace(t);
    NoSpaceSafe(IsoDateTime(t));
    IsoDateTimeRoundTrip(t);
  }

  /** A task whose line reads back as the same task: a non-empty, safe description and years a `LocalDate` can hold. */
  predicate Storable(t: TaskData) {
    t.description != "" && FieldSafe(t.description)
    && match t.detail
       case Todo => true
       case Deadline(due) => YearInRange(due.date)
       case Event(start, end) => YearInRange(start.date) && YearInRange(end.date)
  }

  /** The fields of a task's line, in order. */
  function Fields(t: TaskData): (fs: seq<string>)
    ensures |fs| >= 3
  {
    var s := Status(t.isDone);
    match t.detail
    case Todo => ["T", s, t.description]
    case Deadline(due) => ["D", s, t.description, IsoDateTime(due)]
    case Event(start, end) => ["E", s, t.description, IsoDateTime(start), IsoDateTime(end)]
  }

  lemma Join3(a: string, b: string, c: string)
    ensures Join([a, b, c]) == a + Sep + b + Sep + c
  {
    assert [a, b, c][1..] == [b, c] && [b, c][1..] == [c];
    assert Join([b, c]) == b + Sep + c;
    assert a + Sep + (b + Sep + c) == a + Sep + b + Sep + c;
  }

  lemma Join4(a: string, b: string, c: string, d: string)
    ensures Join([a, b, c, d]) == a + Sep + b + Sep + c + Sep + d
  {
    assert [a, b, c, d][1..] == [b, c, d];
    Join3(b, c, d);
    assert a + Sep + (b + Sep + c + Sep + d) == a + Sep + b + Sep + c + Sep + d;
  }

  lemma Join5(a: string, b: string, c: string, d: string, e: string)
    ensures Join([a, b, c, d, e]) == a + Sep + b + Sep + c + Sep + d + Sep + e
  {
    assert [a, b, c, d, e][1..] == [b, c, d, e];
    Join4(b, c, d, e);
    assert a + Sep + (b + Sep + c + Sep + d + Sep + e) == a + Sep + b + Sep + c + Sep + d + Sep + e;
  }

  lemma FormatIsJoin(t: TaskData)
    ensures FormatTask(t) == Join(Fields(t))
  {
    var s, d := Status(t.isDone), t.description;
    match t.detail
    case Todo => Join3("T", s, d);
    case Deadline(due) => Join4("D", s, d, IsoDateTime(due));
    case Event(start, end) => Join5("E", s, d, IsoDateTime(start), IsoDateTime(end));
  }

  /** Every field of a storable task's line is safe, and the last one is not empty. */
  lemma FieldsSafe(t: TaskData)
    requires Storable(t)
    ensures var fs := Fields(t);
      fs[|fs| - 1] != "" && forall i :: 0 <= i < |fs| ==> FieldSafe(fs[i])
  {
    var fs := Fields(t);
    NoSpaceSafe(fs[0]);
    NoSpaceSafe(fs[1]);
    match t.detail {
      case Todo =>
      case Deadline(due) =>
        StampField(due);
      case Event(start, end) =>
        StampField(start);
        StampField(end);
    }
  }

  /** Round trip: the line `formatTask` writes for a storable task is read back as that task. */
  lemma ParseFormatRoundTrip(t: TaskData)
    requires Storable(t)
    ensures ParseTaskData(FormatTask(t)) == Ok(t)
  {
    var fs := Fields(t);
    FieldsSafe(t);
    FormatIsJoin(t);
    SplitOfJoin(fs);
    match t.detail {
      case Todo =>
      case Deadline(due) =>
        StampField(due);
      case Event(start, end) =>
        StampField(start);
        StampField(end);
    }
    ParseFields(t, fs, FormatTask(t));
  }

  /** Reading the fields of a task's line gives back the task. */
  lemma ParseFields(t: TaskData, fs: seq<string>, line: string)
    requires fs == Fields(t) && Split(line, Sep) == fs
    requires t.detail.Deadline? ==> ParseStamp(fs[3]) == Ok(t.detail.dueDateTime)
    requires t.detail.Event? ==>
      ParseStamp(fs[3]) == Ok(t.detail.startDateTime) && ParseStamp(fs[4]) == Ok(t.detail.endDateTime)
    ensures ParseTaskData(line) == Ok(t)
  {
    assert ParseDetail(fs) == Ok(t.detail);
  }

  // ---------------------------------------------------------------- the file

  /** What `load` makes of the file's lines: every task in file order, or the first line's failure. */
  function LoadData(lines: seq<string>): (r: Result<seq<TaskData>>)
    ensures r.Ok? ==> |r.value| == |lines|
  {
    if lines == [] then Ok([])
    else
      var init := LoadData(lines[..|lines| - 1]);
      var last := ParseTaskData(lines[|lines| - 1]);
      if !init.Ok? then init
      else if !last.Ok? then Propagate(last)
      else Ok(init.value + [last.value])
  }

  /** Loading one more line: the earlier failure, else this line's failure, else one more task. */
  lemma LoadSnoc(lines: seq<string>, line: string)
    ensures var init, last := LoadData(lines), ParseTaskData(line);
      LoadData(lines + [line])
      == if !init.Ok? then init
         else if !last.Ok? then Propagate(last)
         else Ok(init.value + [last.value])
  {
    assert (lines + [line])[..|lines|] == lines;
  }

  /** Once a prefix of the file fails to load, the whole file fails the same way. */
  lemma {:induction false} LoadFailsFromPrefix(prefix: seq<string>, rest: seq<string>)
    requires !LoadData(prefix).Ok?
    ensures LoadData(prefix + rest) == LoadData(prefix)
    decreases |rest|
  {
    if rest == [] {
      assert prefix + rest == prefix;
    } else {
      var init := rest[..|rest| - 1];
      assert (prefix + rest)[..|prefix + rest| - 1] == prefix + init;
      LoadFailsFromPrefix(prefix, init);
    }
  }

  /** Saving one more task writes one more line. */
  lemma SaveLinesSnoc(ds: seq<TaskData>, d: TaskData)
    ensures SaveLines(ds + [d]) == SaveLines(ds) + [FormatTask(d)]
  {
  }

  /** Lines that each read back as the task value at their position load as those values. */
  lemma {:induction false} LoadEach(lines: seq<string>, ds: seq<TaskData>)
    requires |lines| == |ds| && forall i :: 0 <= i < |lines| ==> ParseTaskData(lines[i]) == Ok(ds[i])
    ensures LoadData(lines) == Ok(ds)
  {
    if lines != [] {
      var n := |lines| - 1;
      LoadEach(lines[..n], ds[..n]);
      assert ds == ds[..n] + [ds[n]];
    }
  }

  /** Saving then loading gives back every storable task, in order. */
  lemma SaveLoadRoundTrip(ds: seq<TaskData>)
    requires forall i :: 0 <= i < |ds| ==> Storable(ds[i])
    ensures LoadData(SaveLines(ds)) == Ok(ds)
  {
    var lines := SaveLines(ds);
    forall i | 0 <= i < |lines| ensures ParseTaskData(lines[i]) == Ok(ds[i]) {
      ParseFormatRoundTrip(ds[i]);
    }
    LoadEach(lines, ds);
  }

  /** A separator inside a description splits it: only the text before it comes back. */
  lemma SeparatorInDescriptionExample()
    ensures ParseTaskData(FormatTask(TaskData("a | b", false, Todo))) == Ok(TaskData("a", false, Todo))
  {
    var line := FormatTask(TaskData("a | b", false, Todo));
    assert line == Join(["T", "0", "a", "b"]);
    forall i | 0 <= i < 4 ensures FieldSafe(["T", "0", "a", "b"][i]) {
      NoSpaceSafe(["T", "0", "a", "b"][i]);
    }
    SplitOfJoin(["T", "0", "a", "b"]);
  }

  /** A bar and a space in front of a space-free field leave it safe. */
  lemma BarPrefixSafe(a: string)
    requires |a| >= 2 && ' ' !in a
    ensures FieldSafe("| " + a)
  {
    var s := "| " + a;
    forall j | 0 <= j ensures !OccursAt(s, Sep, j) {
      if j + 3 <= |s| {
        assert s[j..j + 3][0] == s[j] && s[j..j + 3][2] == s[j + 2];
      }
    }
    NoOccurrence(s, Sep);
    assert s[|s| - 2..][0] == a[|a| - 2];
  }

  /**
   * A description ending in ` |` is saved, but its last two characters and
   * the next separator read as a separator first: the due field then starts
   * with `| ` and `LocalDateTime.parse` throws when the file is loaded.
   */
  lemma BarEndingCrashesLoad(due: DateTime)
    ensures ParseTaskData(FormatTask(TaskData("a |", false, Deadline(due)))) == Crash(DateTimeParse)
  {
    var iso := IsoDateTime(due);
    IsoDateTimeNoSpace(due);
    assert |iso| >= 2 by {
      IsoDateParts(due.date);
    }
    assert FormatTask(TaskData("a |", false, Deadline(due))) == Join(["D", "0", "a", "| " + iso]) by {
      BarEndingJoin(iso);
    }
    BarEndingLineCrashes(iso);
  }

  /** The line with the description `a |` and a due field `iso` does not load. */
  lemma BarEndingLineCrashes(iso: string)
    requires |iso| >= 2 && ' ' !in iso
    ensures ParseTaskData(Join(["D", "0", "a", "| " + iso])) == Crash(DateTimeParse)
  {
    var fs := ["D", "0", "a", "| " + iso];
    assert fs[3][0] == '|';
    BarEndingSplit(iso);
    UnreadableDueCrashes(Join(fs), fs);
  }

  /** The fields of the line with the description `a |` split back as written. */
  lemma BarEndingSplit(iso: string)
    requires |iso| >= 2 && ' ' !in iso
    ensures Split(Join(["D", "0", "a", "| " + iso]), Sep) == ["D", "0", "a", "| " + iso]
  {
    var fs := ["D", "0", "a", "| " + iso];
    NoSpaceSafe("D");
    NoSpaceSafe("0");
    NoSpaceSafe("a");
    BarPrefixSafe(iso);
    SplitOfJoin(fs);
  }

  /** The description `a |` and the separator after it read as `a`, a separator and `| `. */
  lemma BarEndingJoin(iso: string)
    ensures "D" + Sep + "0" + Sep + "a |" + Sep + iso == Join(["D", "0", "a", "| " + iso])
  {
    Join4("D", "0", "a", "| " + iso);
    assert "a |" + Sep == "a" + Sep + "| ";
    assert "D" + Sep + "0" + Sep + "a |" + Sep + iso == "D" + Sep + "0" + Sep + ("a |" + Sep) + iso;
  }

  /**
   * A deadline line whose due field is shorter than `yyyy-MM-ddTHH:mm`, or
   * does not start with a digit or a sign, makes `LocalDateTime.parse` throw.
   */
  lemma UnreadableDueCrashes(line: string, fs: seq<string>)
    requires Split(line, Sep) == fs && |fs| == 4 && fs[0] == "D"
    requires |fs[3]| < 16 || !YearStart(fs[3][0])
    ensures ParseTaskData(line) == Crash(DateTimeParse)
  {
  }

  /** The storage object: the file it reads and writes, and whether the file system lets it. */
  class Storage {
    var file: Option<seq<string>>
    var readable: bool
    var writable: bool

    constructor (file: Option<seq<string>>, readable: bool, writable: bool)
      ensures this.file == file && this.readable == readable && this.writable == writable
    {
      this.file := file;
      this.readable := readable;
      this.writable := writable;
    }

    /**
     * `load`: a missing file is an empty list; a file that cannot be read
     * fails with "Error loading data from file."; otherwise one fresh task
     * per line, in file order, or the first line's failure.
     */
    method Load() returns (r: Result<seq<Task>>)
      ensures file.None? ==> r == Ok([])
      ensures file.Some? && !readable ==> r == Fail(LoadErrorMessage)
      ensures file.Some? && readable && LoadData(file.value).Ok? ==>
        r.Ok? && Values(r.value) == LoadData(file.value).value
      ensures file.Some? && readable && !LoadData(file.value).Ok? ==> r == Propagate(LoadData(file.value))
      ensures r.Ok? ==> Distinct(r.value) && forall t :: t in r.value ==> fresh(t)
    {
      if file.None? {
        return Ok([]);
      }
      if !readable {
        return Fail(LoadErrorMessage);
      }
      var lines := file.value;
      var tasks: seq<Task> := [];
      var i := 0;
      while i < |lines|
        invariant 0 <= i <= |lines|
        invariant LoadData(lines[..i]) == Ok(Values(tasks))
        invariant Distinct(tasks) && forall t :: t in tasks ==> fresh(t)
      {
        assert lines[..i + 1] == lines[..i] + [lines[i]];
        LoadSnoc(lines[..i], lines[i]);
        var parsed := ParseTask(lines[i]);
        if !parsed.Ok? {
          LoadFailsFromPrefix(lines[..i + 1], lines[i + 1..]);
          assert lines[..i + 1] + lines[i + 1..] == lines;
          return Propagate(parsed);
        }
        var t := parsed.value;
        DistinctSnoc(tasks, t);
        ValuesOfSnoc(tasks, t);
        tasks := tasks + [t];
        i := i + 1;
      }
      assert lines[..i] == lines;
      return Ok(tasks);
    }

    /**
     * `save`: when the file can be written it is replaced by one line per
     * task, in list order; otherwise "Error saving data to file." and the
     * file is left as it was.
     */
    method Save(ts: seq<Task>) returns (r: Result<()>)
      modifies this
      ensures readable == old(readable) && writable == old(writable)
      ensures writable ==> r == Ok(()) && file == Some(SaveLines(Values(ts)))
      ensures !writable ==> r == Fail(SaveErrorMessage) && file == old(file)
    {
      if !writable {
        return Fail(SaveErrorMessage);
      }
      file := Some([]);
      var i := 0;
      while i < |ts|
        invariant 0 <= i <= |ts|
        invariant readable == old(readable) && writable == old(writable)
        invariant file == Some(SaveLines(Values(ts[..i])))
      {
        ValuesOfConcat(ts[..i], [ts[i]]);
        assert ts[..i + 1] == ts[..i] + [ts[i]];
        assert Values([ts[i]]) == [ts[i].Data()];
        SaveLinesSnoc(Values(ts[..i]), ts[i].Data());
        file := Some(file.value + [FormatTask(ts[i].Data())]);
        i := i + 1;
      }
      assert ts[..i] == ts;
      return Ok(());
    }
  }
}
