/**
 * Dispatcher: `Shinchan.handleInput` and its `handle*` methods. One input
 * line is checked, the task list is changed in place, the whole list is
 * saved, and the outcome is returned: a `Reply` (what the console shows) or
 * the failure a `ShinchanException` carries, or an unchecked exception.
 *
 * The `Plan` functions say, over task values, what a line asks for; the
 * `Shinchan` class carries a plan out on the mutable `TaskList` and the
 * `Storage`, and its methods are proved to do exactly what the plan says.
 */
module Dispatcher {
  import opened Results
  import opened Text
  import opened Calendar
  import opened Parser
  import opened Tasks
  import opened TaskLists
  import opened Persistence

  const EmptyInputMessage := "Input cannot be empty. Please enter a valid command."
  const UnknownCommandMessage := "I'm sorry, but I don't know what that means."
  const InvalidTaskNumberMessage := "Invalid task number."
  const TodoEmptyMessage := "The description of a todo cannot be empty."
  const DeadlineEmptyMessage := "The description of a deadline cannot be empty."
  const DeadlineMissingByMessage := "The deadline command must include '/by' followed by the due date/time."
  const EventEmptyMessage := "The description of an event cannot be empty."
  const EventMissingTimeMessage :=
    "The event command must include '/from' and '/to' followed by the respective date/time."
  const DateTimeBadMessage := "Date/time must be in yyyy-MM-dd HHmm format."
  const DeleteInvalidMessage := "Invalid task number for deletion."
  const OnMissingDateMessage := "The on command must include a date in yyyy-MM-dd format."
  /** What the console shows for an `on` query that matches nothing. */
  const NoTasksOnDateMessage := "No deadlines/events on that date."
  const FindMissingKeywordMessage := "The find command must include a keyword."

  const ByMarker := " /by "
  const FromMarker := "/from"
  const ToMarker := "/to"

  /** The command words `handleInput` knows. */
  const Commands: set<string> := {"todo", "deadline", "event", "find", "on", "list", "mark", "unmark", "delete", "bye"}

  /** What a successful command shows. */
  datatype Reply =
    | Added(task: TaskData, count: nat)          // showTaskAdded: the new task and the new size
    | Listing(tasks: seq<TaskData>)              // showTaskList
    | Found(matches: seq<TaskData>)              // the result of `find`
    | OnDate(date: Date, matches: seq<TaskData>) // showTasksOnDate; no matches shows NoTasksOnDateMessage
    | Shown(task: TaskData)                      // showMessage(task.toString()) after mark/unmark
    | Deleted(task: TaskData, count: nat)        // showTaskDeleted: the removed task and the new size
    | Bye                                        // showBye; `handleInput` returns true

  /** What one input line asks for, over the task values before it. */
  datatype Plan =
    | Reject(message: string)                   // a ShinchanException, thrown before anything changes
    | Abort(fault: Fault)                       // an unchecked exception, thrown before anything changes
    | Answer(reply: Reply)                      // a query: nothing changes and nothing is saved
    | Update(tasks: seq<TaskData>, reply: Reply) // the list becomes `tasks`, then the list is saved

  /** The plan for a failure another operation reported. */
  function Raise<T>(r: Result<T>): (p: Plan)
    requires !r.Ok?
    ensures p.Reject? || p.Abort?
    ensures Outcome(p, true) == Propagate(r) && Outcome(p, false) == Propagate(r)
  {
    if r.Fail? then Reject(r.message) else Abort(r.fault)
  }

  // ---------------------------------------------------------------- carrying out a plan

  /** What `handleInput` reports for a plan, given whether the data file can be written. */
  function Outcome(plan: Plan, writable: bool): Result<Reply> {
    match plan
    case Reject(message) => Fail(message)
    case Abort(fault) => Crash(fault)
    case Answer(reply) => Ok(reply)
    case Update(_, reply) => if writable then Ok(reply) else Fail(SaveErrorMessage)
  }

  /** The task values after the plan. A failed save does not undo the change. */
  function After(plan: Plan, before: seq<TaskData>): seq<TaskData> {
    if plan.Update? then plan.tasks else before
  }

  /** The data file after the plan: the whole new list when it could be written. */
  function FileAfter(plan: Plan, writable: bool, file: Option<seq<string>>): Option<seq<string>> {
    if plan.Update? && writable then Some(SaveLines(plan.tasks)) else file
  }

  /** `handleInput`'s boolean: only `bye` asks the caller to stop. */
  predicate Exits(r: Result<Reply>) {
    r == Ok(Bye)
  }

  /** A failed save reports "Error saving data to file." and keeps the in-memory change. */
  lemma FailedSaveKeepsChange(plan: Plan, before: seq<TaskData>, file: Option<seq<string>>)
    requires plan.Update?
    ensures Outcome(plan, false) == Fail(SaveErrorMessage)
    ensures After(plan, before) == plan.tasks && FileAfter(plan, false, file) == file
  {
  }

  // ---------------------------------------------------------------- the commands

  /** Appends a new task and reports it with the new size. */
  function AddPlan(ds: seq<TaskData>, d: TaskData): Plan {
    Update(ds + [d], Added(d, |ds| + 1))
  }

  /** `handleTodo`: the remainder is the description. */
  function TodoPlan(ds: seq<TaskData>, input: string): (p: Plan)
    ensures p.Reject? || (p.Update? && p.reply.Added?)
  {
    var description := GetRemainder(input);
    if description == "" then Reject(TodoEmptyMessage)
    else AddPlan(ds, TaskData(description, false, Todo))
  }

  /**
   * `handleDeadline`: `" /by "` is looked for in the whole line, but the
   * remainder is what is split, so `parts[1]` may be missing.
   */
  function DeadlinePlan(ds: seq<TaskData>, input: string): (p: Plan)
    ensures p.Reject? || p.Abort? || (p.Update? && p.reply.Added?)
  {
    if !Contains(input, ByMarker) then Reject(DeadlineMissingByMessage)
    else
      var parts := SplitOnce(GetRemainder(input), ByMarker);
      if |parts| < 2 then Abort(ArrayIndexOutOfBounds)
      else
        var description := Trim(parts[0]);
        var dueText := Trim(parts[1]);
        if description == "" then Reject(DeadlineEmptyMessage)
        else
          var due := ParseDateTime(dueText, DateTimeBadMessage);
          if !due.Ok? then Raise(due)
          else AddPlan(ds, TaskData(description, false, Deadline(due.value)))
  }

  /**
   * `handleEvent`: cut at the first `/from`, then the timing at the first
   * `/to`. The start is parsed before `toParts[1]` is read; the end is not
   * compared with the start.
   */
  function EventPlan(ds: seq<TaskData>, input: string): (p: Plan)
    ensures p.Reject? || p.Abort? || (p.Update? && p.reply.Added?)
  {
    var remainder := GetRemainder(input);
    if !Contains(remainder, FromMarker) || !Contains(remainder, ToMarker) then Reject(EventMissingTimeMessage)
    else
      var fromParts := SplitOnce(remainder, FromMarker);
      var description := Trim(fromParts[0]);
      if description == "" then Reject(EventEmptyMessage)
      else
        var timing := Trim(fromParts[1]);
        var toParts := SplitOnce(timing, ToMarker);
        var start := ParseDateTime(Trim(toParts[0]), DateTimeBadMessage);
        if !start.Ok? then Raise(start)
        else if |toParts| < 2 then Abort(ArrayIndexOutOfBounds)
        else
          var end := ParseDateTime(Trim(toParts[1]), DateTimeBadMessage);
          if !end.Ok? then Raise(end)
          else AddPlan(ds, TaskData(description, false, Event(start.value, end.value)))
  }

  /** A deadline due on the date, or an event covering it. */
  predicate FallsOn(d: Detail, date: Date) {
    (d.Deadline? && DueDate(d.dueDateTime) == date)
    || (d.Event? && OccursOn(d.startDateTime, d.endDateTime, date))
  }

  /** The task values `handleOn` collects, in list order. */
  function OnData(ds: seq<TaskData>, date: Date): (r: seq<TaskData>)
    ensures |r| <= |ds|
  {
    if ds == [] then []
    else
      var last := ds[|ds| - 1];
      OnData(ds[..|ds| - 1], date) + (if FallsOn(last.detail, date) then [last] else [])
  }

  /** `handleOn`: a strict `yyyy-MM-dd` date, then the deadlines and events on it. */
  function OnPlan(ds: seq<TaskData>, input: string): (p: Plan)
    ensures p.Reject? || (p.Answer? && p.reply.OnDate?)
  {
    var dateText := GetRemainder(input);
    if dateText == "" then Reject(OnMissingDateMessage)
    else
      var date := ParseDate(dateText, OnMissingDateMessage);
      if !date.Ok? then Raise(date)
      else Answer(OnDate(date.value, OnData(ds, date.value)))
  }

  /** `isValidIndex`: inside `[0, size)`. */
  predicate ValidIndex(index: int, size: nat) {
    index >= 0 && index < size
  }

  /** `handleMark` (`done`) and `handleUnmark` (`!done`): set one task's flag. */
  function MarkPlan(ds: seq<TaskData>, input: string, done: bool): (p: Plan)
    ensures p.Reject? || (p.Update? && p.reply.Shown?)
  {
    var index := ParseTaskIndex(input, InvalidTaskNumberMessage);
    if !index.Ok? then Raise(index)
    else if !ValidIndex(index.value, |ds|) then Reject(InvalidTaskNumberMessage)
    else
      var changed := ds[index.value].(isDone := done);
      Update(ds[index.value := changed], Shown(changed))
  }

  /** `handleDelete`: remove one task and report it with the new size. */
  function DeletePlan(ds: seq<TaskData>, input: string): (p: Plan)
    ensures p.Reject? || (p.Update? && p.reply.Deleted?)
  {
    var index := ParseTaskIndex(input, DeleteInvalidMessage);
    if !index.Ok? then Raise(index)
    else if !ValidIndex(index.value, |ds|) then Reject(DeleteInvalidMessage)
    else
      var i := index.value;
      Update(ds[..i] + ds[i + 1..], Deleted(ds[i], |ds| - 1))
  }

  /** `handleFind`: a keyword that is not blank, then `find`. */
  function FindPlan(ds: seq<TaskData>, input: string): (p: Plan)
    ensures p.Reject? || (p.Answer? && p.reply.Found?)
  {
    var keyword := GetRemainder(input);
    if Trim(keyword) == "" then Reject(FindMissingKeywordMessage)
    else Answer(Found(FindData(ds, keyword)))
  }

  /** The handler a command word selects in `handleInput`'s `switch`. */
  datatype Command =
    | TodoWord | DeadlineWord | EventWord | FindWord | OnWord | ListWord
    | MarkWord | UnmarkWord | DeleteWord | ByeWord | OtherWord

  /** The commands whose handler may change the list and save it. */
  predicate Changes(command: Command) {
    command.TodoWord? || command.DeadlineWord? || command.EventWord?
    || command.MarkWord? || command.UnmarkWord? || command.DeleteWord?
  }

  function CommandOf(word: string): Command {
    if word == "todo" then TodoWord
    else if word == "deadline" then DeadlineWord
    else if word == "event" then EventWord
    else if word == "find" then FindWord
    else if word == "on" then OnWord
    else if word == "list" then ListWord
    else if word == "mark" then MarkWord
    else if word == "unmark" then UnmarkWord
    else if word == "delete" then DeleteWord
    else if word == "bye" then ByeWord
    else OtherWord
  }

  /** Exactly the words outside `Commands` reach the `default` branch. */
  lemma OtherWordsAreUnknown(word: string)
    ensures CommandOf(word) == OtherWord <==> word !in Commands
  {
  }

  /** Only the word `bye` selects the `bye` branch. */
  lemma ByeWordOnly(word: string)
    ensures CommandOf(word) == ByeWord <==> word == "bye"
  {
  }

  /** The query words select the `find`, `on`, `list` and `bye` branches. */
  lemma QueryWords(word: string)
    requires word in {"find", "on", "list", "bye"}
    ensures CommandOf(word) in {FindWord, OnWord, ListWord, ByeWord}
  {
  }

  /** What the handler a command word selects in `handleInput`'s `switch` does. */
  function Handled(c: Command, ds: seq<TaskData>, input: string): Plan {
    match c
    case TodoWord => TodoPlan(ds, input)
    case DeadlineWord => DeadlinePlan(ds, input)
    case EventWord => EventPlan(ds, input)
    case FindWord => FindPlan(ds, input)
    case OnWord => OnPlan(ds, input)
    case ListWord => Answer(Listing(ds))
    case MarkWord => MarkPlan(ds, input, true)
    case UnmarkWord => MarkPlan(ds, input, false)
    case DeleteWord => DeletePlan(ds, input)
    case ByeWord => Answer(Bye)
    case OtherWord => Reject(UnknownCommandMessage)
  }

  /** `handleInput`: an empty line is refused, then the command word picks the handler. */
  function PlanFor(ds: seq<TaskData>, input: string): Plan {
    if input == "" then Reject(EmptyInputMessage)
    else Handled(CommandOf(GetCommandWord(input)), ds, input)
  }

  // ---------------------------------------------------------------- the on-date filter

  /** Scanning one more task value adds it at the end when it falls on the date. */
  lemma OnSnoc(ds: seq<TaskData>, d: TaskData, date: Date)
    ensures OnData(ds + [d], date) == OnData(ds, date) + (if FallsOn(d.detail, date) then [d] else [])
  {
    assert (ds + [d])[..|ds|] == ds;
  }

  /** A task value is listed exactly when it is in the list and falls on the date. */
  lemma {:induction false} OnMembership(ds: seq<TaskData>, date: Date, d: TaskData)
    ensures d in OnData(ds, date) <==> d in ds && FallsOn(d.detail, date)
  {
    if ds != [] {
      var init := ds[..|ds| - 1];
      OnMembership(init, date, d);
      assert ds == init + [ds[|ds| - 1]];
    }
  }

  /** Filtering a concatenation filters each part and keeps their order. */
  lemma {:induction false} OnConcat(a: seq<TaskData>, b: seq<TaskData>, date: Date)
    ensures OnData(a + b, date) == OnData(a, date) + OnData(b, date)
  {
    if b == [] {
      assert a + b == a;
    } else {
      var init := b[..|b| - 1];
      assert (a + b)[..|a + b| - 1] == a + init;
      OnConcat(a, init, date);
    }
  }

  // ---------------------------------------------------------------- typed lines

  /** A line as the user types it: a command word, one space, the rest. */
  function Line(word: string, rest: string): string {
    word + " " + rest
  }

  lemma CommandWords(word: string)
    requires word in Commands
    ensures word != [] && NoWhite(word) && ' ' !in word && '/' !in word && Lower(word) == word
  {
    assert forall i | 0 <= i < |word| :: 'a' <= word[i] <= 'z';
    assert forall i | 0 <= i < |word| :: Lower(word)[i] == word[i];
  }

  /** The command word and the remainder of a typed line. */
  lemma Typed(word: string, rest: string)
    requires word in Commands
    ensures Line(word, rest) != ""
    ensures GetCommandWord(Line(word, rest)) == word
    ensures GetRemainder(Line(word, rest)) == Trim(rest)
  {
    CommandWords(word);
    CommandWordOf(word, rest);
    RemainderOf(word, rest);
  }

  lemma TrimClean(m: string)
    requires Clean(m)
    ensures Trim(m) == m
  {
    TrimOf([], m, []);
    assert [] + m + [] == m;
  }

  lemma TrimBlank(w: string)
    requires AllWhite(w)
    ensures Trim(w) == ""
  {
    TrimOf(w, [], []);
    assert w + [] + [] == w;
  }

  lemma TrimSpaceAfter(m: string)
    requires Clean(m)
    ensures Trim(m + " ") == m
  {
    TrimOf([], m, " ");
    assert [] + m + " " == m + " ";
  }

  lemma TrimSpaceBefore(m: string)
    requires Clean(m)
    ensures Trim(" " + m) == m
  {
    TrimOf(" ", m, []);
    assert " " + m + [] == " " + m;
  }

  lemma CleanBetween(a: string, mid: string, b: string)
    requires a != [] && b != [] && Clean(a) && Clean(b)
    ensures Clean(a + mid + b)
  {
    var s := a + mid + b;
    assert s[0] == a[0] && s[|s| - 1] == b[|b| - 1];
  }

  /**
   * A marker with `/` first, or with a space and then `/`, first occurs
   * right after text that has no `/`.
   */
  lemma MarkerAfter(a: string, marker: string, b: string)
    requires '/' !in a
    requires |marker| >= 2 && (marker[0] == '/' || (marker[0] == ' ' && marker[1] == '/'))
    ensures IndexOf(a + marker + b, marker) == Some(|a|)
  {
    var s := a + marker + b;
    assert s[|a|..|a| + |marker|] == marker;
    forall j | 0 <= j < |a| ensures !OccursAt(s, marker, j) {
      if j + |marker| <= |s| {
        assert s[j..j + |marker|][0] == s[j] && s[j..j + |marker|][1] == s[j + 1];
        assert s[j] == a[j];
        if j + 1 < |a| {
          assert s[j + 1] == a[j + 1];
        } else {
          assert s[j + 1] == marker[0];
        }
      }
    }
    IndexOfIs(s, marker, |a|);
  }

  /** A marker starting with `/` does not occur in text without `/`. */
  lemma NoSlashNoMarker(s: string, marker: string)
    requires '/' !in s && marker != [] && marker[0] == '/'
    ensures !Contains(s, marker)
  {
    forall j | 0 <= j ensures !OccursAt(s, marker, j) {
      if j + |marker| <= |s| {
        assert s[j..j + |marker|][0] == s[j];
      }
    }
    NoOccurrence(s, marker);
  }

  /** A marker with `/` second does not occur in text whose only `/` may be its first character. */
  lemma NoMarkerAfterFirst(s: string, marker: string)
    requires |marker| >= 2 && marker[1] == '/'
    requires forall i | 1 <= i < |s| :: s[i] != '/'
    ensures !Contains(s, marker)
  {
    forall j | 0 <= j ensures !OccursAt(s, marker, j) {
      if j + |marker| <= |s| {
        assert s[j..j + |marker|][1] == s[j + 1];
      }
    }
    NoOccurrence(s, marker);
  }

  // ---------------------------------------------------------------- the switch in handleInput

  /** A line whose command word is `todo` runs `handleTodo`. */
  lemma DispatchTodo(ds: seq<TaskData>, input: string)
    requires input != "" && CommandOf(GetCommandWord(input)) == TodoWord
    ensures PlanFor(ds, input) == TodoPlan(ds, input)
  {
  }

  /** A line whose command word is `deadline` runs `handleDeadline`. */
  lemma DispatchDeadline(ds: seq<TaskData>, input: string)
    requires input != "" && CommandOf(GetCommandWord(input)) == DeadlineWord
    ensures PlanFor(ds, input) == DeadlinePlan(ds, input)
  {
  }

  /** A line whose command word is `event` runs `handleEvent`. */
  lemma DispatchEvent(ds: seq<TaskData>, input: string)
    requires input != "" && CommandOf(GetCommandWord(input)) == EventWord
    ensures PlanFor(ds, input) == EventPlan(ds, input)
  {
  }

  /** A line whose command word is `find` runs `handleFind`. */
  lemma DispatchFind(ds: seq<TaskData>, input: string)
    requires input != "" && CommandOf(GetCommandWord(input)) == FindWord
    ensures PlanFor(ds, input) == FindPlan(ds, input)
  {
  }

  /** A line whose command word is `on` runs `handleOn`. */
  lemma DispatchOn(ds: seq<TaskData>, input: string)
    requires input != "" && CommandOf(GetCommandWord(input)) == OnWord
    ensures PlanFor(ds, input) == OnPlan(ds, input)
  {
  }

  /** A line whose command word is `list` shows the whole list. */
  lemma DispatchList(ds: seq<TaskData>, input: string)
    requires input != "" && CommandOf(GetCommandWord(input)) == ListWord
    ensures PlanFor(ds, input) == Answer(Listing(ds))
  {
  }

  /** A line whose command word is `mark` runs `handleMark`. */
  lemma DispatchMark(ds: seq<TaskData>, input: string)
    requires input != "" && CommandOf(GetCommandWord(input)) == MarkWord
    ensures PlanFor(ds, input) == MarkPlan(ds, input, true)
  {
  }

  /** A line whose command word is `unmark` runs `handleUnmark`. */
  lemma DispatchUnmark(ds: seq<TaskData>, input: string)
    requires input != "" && CommandOf(GetCommandWord(input)) == UnmarkWord
    ensures PlanFor(ds, input) == MarkPlan(ds, input, false)
  {
  }

  /** A line whose command word is `delete` runs `handleDelete`. */
  lemma DispatchDelete(ds: seq<TaskData>, input: string)
    requires input != "" && CommandOf(GetCommandWord(input)) == DeleteWord
    ensures PlanFor(ds, input) == DeletePlan(ds, input)
  {
  }

  /** A line whose command word is `bye` only says goodbye. */
  lemma DispatchBye(ds: seq<TaskData>, input: string)
    requires input != "" && CommandOf(GetCommandWord(input)) == ByeWord
    ensures PlanFor(ds, input) == Answer(Bye)
  {
  }

  /** An empty line fails with "Input cannot be empty..." and changes nothing. */
  lemma EmptyInputRejected(ds: seq<TaskData>, writable: bool, file: Option<seq<string>>)
    ensures Outcome(PlanFor(ds, ""), writable) == Fail(EmptyInputMessage)
    ensures After(PlanFor(ds, ""), ds) == ds && FileAfter(PlanFor(ds, ""), writable, file) == file
  {
  }

  /** A line whose command word matches no `case` reaches the `default` branch. */
  lemma DispatchOther(ds: seq<TaskData>, input: string)
    requires input != "" && CommandOf(GetCommandWord(input)) == OtherWord
    ensures PlanFor(ds, input) == Reject(UnknownCommandMessage)
  {
  }

  /** A word `handleInput` does not know fails with "I'm sorry, but I don't know what that means." */
  lemma UnknownCommandRejected(ds: seq<TaskData>, input: string)
    requires input != "" && GetCommandWord(input) !in Commands
    ensures PlanFor(ds, input) == Reject(UnknownCommandMessage)
  {
    OtherWordsAreUnknown(GetCommandWord(input));
    DispatchOther(ds, input);
  }

  /** `handleInput` returns true for `bye` and for nothing else. */
  lemma OnlyByeExits(ds: seq<TaskData>, input: string, writable: bool)
    ensures Exits(Outcome(PlanFor(ds, input), writable)) <==> input != "" && GetCommandWord(input) == "bye"
  {
    if input != "" {
      ByeWordOnly(GetCommandWord(input));
      HandlerExits(CommandOf(GetCommandWord(input)), ds, input, writable);
    }
  }

  /** Of all the handlers, only the one for `bye` answers with the exit signal. */
  lemma HandlerExits(c: Command, ds: seq<TaskData>, input: string, writable: bool)
    ensures Exits(Outcome(Handled(c, ds, input), writable)) <==> c == ByeWord
  {
    match c
    case TodoWord =>
    case DeadlineWord =>
    case EventWord =>
    case FindWord =>
    case OnWord =>
    case ListWord =>
    case MarkWord =>
    case UnmarkWord =>
    case DeleteWord =>
    case ByeWord =>
    case OtherWord =>
  }

  /** `find`, `on`, `list` and `bye` never change the list or the data file. */
  lemma QueriesChangeNothing(ds: seq<TaskData>, input: string, writable: bool, file: Option<seq<string>>)
    requires GetCommandWord(input) in {"find", "on", "list", "bye"}
    ensures After(PlanFor(ds, input), ds) == ds
    ensures FileAfter(PlanFor(ds, input), writable, file) == file
  {
    var word := GetCommandWord(input);
    assert input != "";
    if word == "find" {
      assert CommandOf(word) == FindWord;
      DispatchFind(ds, input);
    } else if word == "on" {
      assert CommandOf(word) == OnWord;
      DispatchOn(ds, input);
    } else if word == "list" {
      assert CommandOf(word) == ListWord;
      DispatchList(ds, input);
    } else {
      assert CommandOf(word) == ByeWord;
      DispatchBye(ds, input);
    }
  }

  // ---------------------------------------------------------------- todo

  /** `handleTodo` adds exactly when the remainder is not empty, and then adds a not-done todo with it. */
  lemma TodoAddsOne(ds: seq<TaskData>, input: string)
    ensures var p := TodoPlan(ds, input);
      (p.Update? <==> GetRemainder(input) != "")
      && (!p.Update? ==> p == Reject(TodoEmptyMessage))
      && (p.Update? ==> p.tasks == ds + [TaskData(GetRemainder(input), false, Todo)]
                        && p.reply == Added(p.tasks[|ds|], |ds| + 1))
  {
  }

  /** `todo <description>` appends exactly one not-done todo with that description. */
  lemma TodoCommandAdds(ds: seq<TaskData>, description: string)
    requires description != "" && Clean(description)
    ensures TodoPlan(ds, Line("todo", description)) == AddPlan(ds, TaskData(description, false, Todo))
  {
    RemainderOf("todo", description);
    TrimClean(description);
  }

  /** `todo` with only blanks after it fails with the todo message. */
  lemma TodoNeedsDescription(ds: seq<TaskData>, blank: string)
    requires AllWhite(blank)
    ensures TodoPlan(ds, Line("todo", blank)) == Reject(TodoEmptyMessage)
  {
    RemainderOf("todo", blank);
    TrimBlank(blank);
  }

  // ---------------------------------------------------------------- deadline

  /** Text without `/`, a marker and anything after it split at that marker. */
  lemma SplitAtMarker(a: string, marker: string, b: string)
    requires '/' !in a
    requires |marker| >= 2 && (marker[0] == '/' || (marker[0] == ' ' && marker[1] == '/'))
    ensures Contains(a + marker + b, marker)
    ensures SplitOnce(a + marker + b, marker) == [a, b]
  {
    var s := a + marker + b;
    MarkerAfter(a, marker, b);
    assert s[..|a|] == a;
    assert s[|a| + |marker|..] == b;
  }

  /** Text that contains a marker still does with anything before it. */
  lemma ContainsAfter(prefix: string, s: string, pat: string)
    requires Contains(s, pat)
    ensures Contains(prefix + s, pat)
  {
    IndexOfSpec(s, pat);
    var k := IndexOf(s, pat).value;
    assert (prefix + s)[|prefix| + k..|prefix| + k + |pat|] == s[k..k + |pat|];
    ContainsAt(prefix + s, pat, |prefix| + k);
  }

  /** A typed line whose rest is text without `/`, a marker and more text. */
  lemma TypedSplit(word: string, a: string, marker: string, b: string)
    requires word != [] && NoWhite(word) && Clean(a + marker + b) && '/' !in a
    requires |marker| >= 2 && (marker[0] == '/' || (marker[0] == ' ' && marker[1] == '/'))
    ensures Contains(Line(word, a + marker + b), marker)
    ensures SplitOnce(GetRemainder(Line(word, a + marker + b)), marker) == [a, b]
  {
    var rest := a + marker + b;
    SplitAtMarker(a, marker, b);
    ContainsAfter(word + " ", rest, marker);
    TypedRest(word, rest);
  }

  /** The remainder of a typed line is its trimmed rest, here the rest itself. */
  lemma TypedRest(word: string, rest: string)
    requires word != [] && NoWhite(word) && Clean(rest)
    ensures GetRemainder(Line(word, rest)) == rest
  {
    RemainderOf(word, rest);
    TrimClean(rest);
  }

  /**
   * `handleDeadline` refuses a line without `" /by "` before it looks at the
   * description; it adds only a not-done deadline whose description is the
   * trimmed text before the first `" /by "` of the remainder, not blank.
   */
  lemma DeadlineAddsOne(ds: seq<TaskData>, input: string)
    ensures var p := DeadlinePlan(ds, input);
      (!Contains(input, ByMarker) ==> p == Reject(DeadlineMissingByMessage))
      && (p.Update? ==>
            var parts := SplitOnce(GetRemainder(input), ByMarker);
            |parts| == 2 && |p.tasks| == |ds| + 1 && p.tasks[..|ds|] == ds
            && p.tasks[|ds|] == TaskData(Trim(parts[0]), false, p.tasks[|ds|].detail)
            && Trim(parts[0]) != "" && p.tasks[|ds|].detail.Deadline?
            && Ok(p.tasks[|ds|].detail.dueDateTime) == ParseDateTime(Trim(parts[1]), DateTimeBadMessage))
  {
    var p := DeadlinePlan(ds, input);
    if p.Update? {
      var parts := SplitOnce(GetRemainder(input), ByMarker);
      var due := ParseDateTime(Trim(parts[1]), DateTimeBadMessage);
      var d := TaskData(Trim(parts[0]), false, Deadline(due.value));
      assert p == AddPlan(ds, d);
      assert (ds + [d])[..|ds|] == ds;
    }
  }

  /** The pieces of a typed `deadline <description> /by <due>` line. */
  lemma DeadlineLine(description: string, dueText: string)
    requires description != "" && Clean(description) && '/' !in description
    requires dueText != "" && Clean(dueText)
    ensures var input := Line("deadline", description + ByMarker + dueText);
      Contains(input, ByMarker) && SplitOnce(GetRemainder(input), ByMarker) == [description, dueText]
  {
    CleanBetween(description, ByMarker, dueText);
    TypedSplit("deadline", description, ByMarker, dueText);
  }

  lemma DeadlineFromParts(ds: seq<TaskData>, input: string, description: string, dueText: string)
    requires Contains(input, ByMarker) && SplitOnce(GetRemainder(input), ByMarker) == [description, dueText]
    requires description != "" && Clean(description) && Clean(dueText)
    requires ParseDateTime(dueText, DateTimeBadMessage).Ok?
    ensures DeadlinePlan(ds, input)
         == AddPlan(ds, TaskData(description, false, Deadline(ParseDateTime(dueText, DateTimeBadMessage).value)))
  {
    TrimClean(description);
    TrimClean(dueText);
  }

  /**
   * `deadline <description> /by <due>` appends one not-done deadline: the
   * description is the text before the first `" /by "` and the due
   * date-time is read from the text after it.
   */
  lemma DeadlineCommandAdds(ds: seq<TaskData>, description: string, dueText: string)
    requires description != "" && Clean(description) && '/' !in description
    requires dueText != "" && Clean(dueText) && ParseDateTime(dueText, DateTimeBadMessage).Ok?
    ensures DeadlinePlan(ds, Line("deadline", description + ByMarker + dueText))
         == AddPlan(ds, TaskData(description, false, Deadline(ParseDateTime(dueText, DateTimeBadMessage).value)))
  {
    DeadlineLine(description, dueText);
    DeadlineFromParts(ds, Line("deadline", description + ByMarker + dueText), description, dueText);
  }

  /**
   * Every due date `parseDateTime` accepts, midnight starting year 10000
   * (`9999-12-31 2400`) included, is saved as a field that `load` reads
   * back unchanged.
   */
  lemma TypedDueReloads(dueText: string, msg: string)
    requires ParseDateTime(dueText, msg).Ok?
    ensures var due := ParseDateTime(dueText, msg).value;
      FieldSafe(IsoDateTime(due)) && ParseStamp(IsoDateTime(due)) == Ok(due)
  {
    StampField(ParseDateTime(dueText, msg).value);
  }

  /** A typed line without `/` after a command word has no `/` at all. */
  lemma NoSlashLine(word: string, rest: string)
    requires word in Commands && '/' !in rest
    ensures '/' !in Line(word, rest)
  {
    CommandWords(word);
    var input := Line(word, rest);
    forall i | 0 <= i < |input| ensures input[i] != '/' {
      if i > |word| {
        assert input[i] == rest[i - |word| - 1];
      } else if i < |word| {
        assert input[i] == word[i];
      }
    }
  }

  /** Text without `/` holds no `" /by "`. */
  lemma NoSlashNoBy(s: string)
    requires '/' !in s
    ensures !Contains(s, ByMarker)
  {
    NoMarkerAfterFirst(s, ByMarker);
  }

  /** Without any `/` after the word, `deadline` reports the missing `/by`, even when the description is missing too. */
  lemma DeadlineNeedsBy(ds: seq<TaskData>, rest: string)
    requires '/' !in rest
    ensures DeadlinePlan(ds, Line("deadline", rest)) == Reject(DeadlineMissingByMessage)
  {
    NoSlashLine("deadline", rest);
    NoSlashNoBy(Line("deadline", rest));
  }

  /** `/by <due>` with no other `/`: clean, and without `" /by "`. */
  lemma BareBy(dueText: string)
    requires dueText != "" && Clean(dueText) && '/' !in dueText
    ensures Clean("/by " + dueText) && !Contains("/by " + dueText, ByMarker)
  {
    var rest := "/by " + dueText;
    assert rest[0] == '/' && rest[|rest| - 1] == dueText[|dueText| - 1];
    forall i | 1 <= i < |rest| ensures rest[i] != '/' {
      if i >= 4 {
        assert rest[i] == dueText[i - 4];
      }
    }
    NoMarkerAfterFirst(rest, ByMarker);
  }

  /** A typed `<word> /by <due>` line holds `" /by "` right after the word. */
  lemma BareByLineShape(word: string, dueText: string)
    requires word in Commands
    ensures Line(word, "/by " + dueText) == word + ByMarker + dueText
    ensures Contains(Line(word, "/by " + dueText), ByMarker)
  {
    CommandWords(word);
    SplitAtMarker(word, ByMarker, dueText);
  }

  /** The pieces of a typed `deadline /by <due>` line: the remainder no longer holds `" /by "`. */
  lemma BareByLine(dueText: string)
    requires dueText != "" && Clean(dueText) && '/' !in dueText
    ensures var input := Line("deadline", "/by " + dueText);
      Contains(input, ByMarker) && !Contains(GetRemainder(input), ByMarker)
  {
    RemainderOf("deadline", "/by " + dueText);
    BareBy(dueText);
    TrimClean("/by " + dueText);
    BareByLineShape("deadline", dueText);
  }

  /**
   * `deadline /by <due>` passes the `" /by "` test on the whole line, but
   * the trimmed remainder `/by <due>` has no `" /by "`, so reading
   * `parts[1]` throws instead of reporting the empty description.
   */
  lemma DeadlineWithoutDescriptionCrashes(ds: seq<TaskData>, dueText: string)
    requires dueText != "" && Clean(dueText) && '/' !in dueText
    ensures DeadlinePlan(ds, Line("deadline", "/by " + dueText)) == Abort(ArrayIndexOutOfBounds)
  {
    BareByLine(dueText);
  }

  // ---------------------------------------------------------------- event

  /**
   * `handleEvent` refuses a remainder without both `/from` and `/to`; it adds
   * only a not-done event whose description is the trimmed text before the
   * first `/from`, not blank, and whose start is read before its end.
   */
  lemma EventAddsOne(ds: seq<TaskData>, input: string)
    ensures var p := EventPlan(ds, input);
      var remainder := GetRemainder(input);
      (!Contains(remainder, FromMarker) || !Contains(remainder, ToMarker) ==> p == Reject(EventMissingTimeMessage))
      && (p.Update? ==>
            var description := Trim(SplitOnce(remainder, FromMarker)[0]);
            Contains(remainder, FromMarker) && Contains(remainder, ToMarker)
            && |p.tasks| == |ds| + 1 && p.tasks[..|ds|] == ds
            && p.tasks[|ds|] == TaskData(description, false, p.tasks[|ds|].detail)
            && description != "" && p.tasks[|ds|].detail.Event?)
  {
    var p := EventPlan(ds, input);
    if p.Update? {
      var remainder := GetRemainder(input);
      var fromParts := SplitOnce(remainder, FromMarker);
      var toParts := SplitOnce(Trim(fromParts[1]), ToMarker);
      var start := ParseDateTime(Trim(toParts[0]), DateTimeBadMessage);
      var end := ParseDateTime(Trim(toParts[1]), DateTimeBadMessage);
      var d := TaskData(Trim(fromParts[0]), false, Event(start.value, end.value));
      assert p == AddPlan(ds, d);
      assert (ds + [d])[..|ds|] == ds;
    }
  }

  /** The timing part of an event line, `<from> /to <to>`, and its two pieces. */
  lemma TimingParts(fromText: string, toText: string)
    requires fromText != "" && Clean(fromText) && '/' !in fromText
    requires toText != "" && Clean(toText)
    ensures Trim(" " + (fromText + " /to " + toText)) == fromText + " /to " + toText
    ensures SplitOnce(fromText + " /to " + toText, ToMarker) == [fromText + " ", " " + toText]
    ensures Trim(fromText + " ") == fromText && Trim(" " + toText) == toText
  {
    CleanBetween(fromText, " /to ", toText);
    TrimSpaceBefore(fromText + " /to " + toText);
    assert fromText + " /to " + toText == (fromText + " ") + ToMarker + (" " + toText);
    SplitAtMarker(fromText + " ", ToMarker, " " + toText);
    TrimSpaceAfter(fromText);
    TrimSpaceBefore(toText);
  }

  /** How the rest of an event line falls apart at its markers. */
  lemma EventRestShape(description: string, fromText: string, toText: string)
    ensures var rest := description + " /from " + fromText + " /to " + toText;
      rest == (description + " ") + FromMarker + (" " + (fromText + " /to " + toText))
      && rest == description + (" /from " + fromText + " /to ") + toText
      && OccursAt(rest, ToMarker, |description| + 8 + |fromText|)
  {
    var rest := description + " /from " + fromText + " /to " + toText;
    var k := |description| + 8 + |fromText|;
    assert rest[k..k + 3] == ToMarker;
  }

  /** The rest of an event line: clean, with both markers, split at the first `/from`. */
  lemma EventRest(description: string, fromText: string, toText: string)
    requires description != "" && Clean(description) && '/' !in description
    requires toText != "" && Clean(toText)
    ensures var rest := description + " /from " + fromText + " /to " + toText;
      Clean(rest) && Contains(rest, FromMarker) && Contains(rest, ToMarker)
      && SplitOnce(rest, FromMarker) == [description + " ", " " + (fromText + " /to " + toText)]
  {
    var rest := description + " /from " + fromText + " /to " + toText;
    EventRestShape(description, fromText, toText);
    CleanBetween(description, " /from " + fromText + " /to ", toText);
    SplitAtMarker(description + " ", FromMarker, " " + (fromText + " /to " + toText));
    ContainsAt(rest, ToMarker, |description| + 8 + |fromText|);
  }

  /** The pieces of a typed `event <description> /from <from> /to <to>` line. */
  lemma EventLine(description: string, fromText: string, toText: string)
    requires description != "" && Clean(description) && '/' !in description
    requires toText != "" && Clean(toText)
    ensures var remainder := GetRemainder(Line("event", description + " /from " + fromText + " /to " + toText));
      Contains(remainder, FromMarker) && Contains(remainder, ToMarker)
      && SplitOnce(remainder, FromMarker) == [description + " ", " " + (fromText + " /to " + toText)]
  {
    var rest := description + " /from " + fromText + " /to " + toText;
    EventRest(description, fromText, toText);
    RemainderOf("event", rest);
    TrimClean(rest);
  }

  lemma EventFromParts(ds: seq<TaskData>, input: string, description: string, fromText: string, toText: string)
    requires description != "" && Clean(description)
    requires fromText != "" && Clean(fromText) && '/' !in fromText
    requires toText != "" && Clean(toText)
    requires var remainder := GetRemainder(input);
      Contains(remainder, FromMarker) && Contains(remainder, ToMarker)
      && SplitOnce(remainder, FromMarker) == [description + " ", " " + (fromText + " /to " + toText)]
    requires ParseDateTime(fromText, DateTimeBadMessage).Ok? && ParseDateTime(toText, DateTimeBadMessage).Ok?
    ensures EventPlan(ds, input) == AddPlan(ds, TaskData(description, false,
      Event(ParseDateTime(fromText, DateTimeBadMessage).value, ParseDateTime(toText, DateTimeBadMessage).value)))
  {
    TrimSpaceAfter(description);
    TimingParts(fromText, toText);
  }

  /**
   * `event <description> /from <from> /to <to>` appends one not-done event:
   * the description is the text before the first `/from`, the start the
   * text before the first `/to` after it, and the end the text after that.
   */
  lemma EventCommandAdds(ds: seq<TaskData>, description: string, fromText: string, toText: string)
    requires description != "" && Clean(description) && '/' !in description
    requires fromText != "" && Clean(fromText) && '/' !in fromText
    requires toText != "" && Clean(toText)
    requires ParseDateTime(fromText, DateTimeBadMessage).Ok? && ParseDateTime(toText, DateTimeBadMessage).Ok?
    ensures EventPlan(ds, Line("event", description + " /from " + fromText + " /to " + toText))
         == AddPlan(ds, TaskData(description, false,
              Event(ParseDateTime(fromText, DateTimeBadMessage).value, ParseDateTime(toText, DateTimeBadMessage).value)))
  {
    var input := Line("event", description + " /from " + fromText + " /to " + toText);
    EventLine(description, fromText, toText);
    EventFromParts(ds, input, description, fromText, toText);
  }

  /** The end is never compared with the start: an event that ends before it starts is added all the same. */
  lemma EventEndingBeforeStartIsAdded(ds: seq<TaskData>, description: string, fromText: string, toText: string)
    requires description != "" && Clean(description) && '/' !in description
    requires fromText != "" && Clean(fromText) && '/' !in fromText
    requires toText != "" && Clean(toText)
    requires ParseDateTime(fromText, DateTimeBadMessage).Ok? && ParseDateTime(toText, DateTimeBadMessage).Ok?
    requires DateTimeBefore(ParseDateTime(toText, DateTimeBadMessage).value, ParseDateTime(fromText, DateTimeBadMessage).value)
    ensures var p := EventPlan(ds, Line("event", description + " /from " + fromText + " /to " + toText));
      p.Update? && |p.tasks| == |ds| + 1 && !WellFormed(p.tasks[|ds|].detail)
  {
    EventCommandAdds(ds, description, fromText, toText);
  }

  /**
   * `/to` typed before `/from`: the description runs up to `/from` and so
   * keeps the `/to`, and the timing after `/from` has no `/to`, so reading
   * `toParts[1]` throws once the start has been read.
   */
  lemma EventToBeforeFromCrashes(ds: seq<TaskData>, description: string, text: string)
    requires description != "" && Clean(description) && '/' !in description
    requires text != "" && Clean(text) && '/' !in text
    requires ParseDateTime(text, DateTimeBadMessage).Ok?
    ensures EventPlan(ds, Line("event", description + " /to /from " + text)) == Abort(ArrayIndexOutOfBounds)
  {
    var rest := description + " /to /from " + text;
    ToBeforeFromRest(description, text);
    RemainderOf("event", rest);
    TrimClean(rest);
    ToBeforeFromPieces(description, text);
  }

  /** The rest of a line with `/to` before `/from`: both markers, split at `/from`. */
  lemma ToBeforeFromRest(description: string, text: string)
    requires description != "" && Clean(description) && '/' !in description
    requires text != "" && Clean(text)
    ensures var rest := description + " /to /from " + text;
      Clean(rest) && Contains(rest, FromMarker) && Contains(rest, ToMarker)
      && SplitOnce(rest, FromMarker) == [description + " /to ", " " + text]
  {
    var rest := description + " /to /from " + text;
    var a := description + " /to ";
    var n := |description|;
    assert rest == a + FromMarker + (" " + text);
    assert rest[0] == description[0] && rest[|rest| - 1] == text[|text| - 1];
    assert rest[n + 1..n + 4] == ToMarker;
    ContainsAt(rest, ToMarker, n + 1);
    assert rest[|a|..|a| + 5] == FromMarker;
    forall j | 0 <= j < |a| ensures !OccursAt(rest, FromMarker, j) {
      if j + 5 <= |rest| {
        assert rest[j..j + 5][0] == rest[j] && rest[j..j + 5][1] == rest[j + 1];
        if j < n {
          assert rest[j] == description[j];
        } else {
          assert rest[n..n + 6] == " /to /";
        }
      }
    }
    IndexOfIs(rest, FromMarker, |a|);
    assert rest[..|a|] == a;
    assert rest[|a| + 5..] == " " + text;
  }

  /** The two pieces either side of `/from` when `/to` came first: a description, and a timing without `/to`. */
  lemma ToBeforeFromPieces(description: string, text: string)
    requires description != "" && Clean(description) && '/' !in description
    requires text != "" && Clean(text) && '/' !in text
    ensures Trim(description + " /to ") != ""
    ensures Trim(" " + text) == text && SplitOnce(text, ToMarker) == [text] && Trim(text) == text
  {
    var head := description + " /to";
    assert head[0] == description[0] && head[|head| - 1] == 'o';
    TrimSpaceAfter(head);
    assert description + " /to " == head + " ";
    TrimSpaceBefore(text);
    NoSlashNoMarker(text, ToMarker);
    TrimClean(text);
  }

  // ---------------------------------------------------------------- mark, unmark, delete

  /**
   * `mark`/`unmark` succeed exactly for a number that is a valid index once
   * one is taken off; they then set that task's flag and leave every other
   * task as it was. Anything else fails with "Invalid task number." and
   * changes nothing.
   */
  lemma MarkChangesOnlyTheFlag(ds: seq<TaskData>, input: string, done: bool)
    ensures var p := MarkPlan(ds, input, done);
      var index := ParseTaskIndex(input, InvalidTaskNumberMessage);
      (p.Update? <==> index.Ok? && ValidIndex(index.value, |ds|))
      && (!p.Update? ==> p == Reject(InvalidTaskNumberMessage))
      && (p.Update? ==>
            |p.tasks| == |ds|
            && p.tasks[index.value].isDone == done
            && p.tasks[index.value].description == ds[index.value].description
            && p.tasks[index.value].detail == ds[index.value].detail
            && p.reply == Shown(p.tasks[index.value])
            && forall j | 0 <= j < |ds| && j != index.value :: p.tasks[j] == ds[j])
  {
    var index := ParseTaskIndex(input, InvalidTaskNumberMessage);
    if index.Ok? && ValidIndex(index.value, |ds|) {
      var changed := ds[index.value].(isDone := done);
      assert MarkPlan(ds, input, done) == Update(ds[index.value := changed], Shown(changed));
    }
  }

  /**
   * `delete` succeeds exactly for a valid index; it then reports the task
   * that was there, the tasks before it stay and the ones after it move up
   * by one. Anything else fails with "Invalid task number for deletion."
   * and changes nothing.
   */
  lemma DeleteRemovesOne(ds: seq<TaskData>, input: string)
    ensures var p := DeletePlan(ds, input);
      var index := ParseTaskIndex(input, DeleteInvalidMessage);
      (p.Update? <==> index.Ok? && ValidIndex(index.value, |ds|))
      && (!p.Update? ==> p == Reject(DeleteInvalidMessage))
      && (p.Update? ==>
            |p.tasks| == |ds| - 1
            && p.reply == Deleted(ds[index.value], |p.tasks|)
            && multiset(p.tasks) + multiset{ds[index.value]} == multiset(ds)
            && p.tasks[..index.value] == ds[..index.value]
            && p.tasks[index.value..] == ds[index.value + 1..])
  {
    var index := ParseTaskIndex(input, DeleteInvalidMessage);
    if index.Ok? && ValidIndex(index.value, |ds|) {
      RemovedAt(ds, index.value);
    }
  }

  /** Removing the element at `i`: one fewer, the rest in order, the same multiset but for it. */
  lemma RemovedAt(ds: seq<TaskData>, i: int)
    requires 0 <= i < |ds|
    ensures var r := ds[..i] + ds[i + 1..];
      |r| == |ds| - 1 && multiset(r) + multiset{ds[i]} == multiset(ds)
      && r[..i] == ds[..i] && r[i..] == ds[i + 1..]
  {
    var r := ds[..i] + ds[i + 1..];
    assert ds == ds[..i] + [ds[i]] + ds[i + 1..];
    assert r[..i] == ds[..i];
    assert r[i..] == ds[i + 1..];
  }

  /** A line whose remainder is the text of an `int` `n` names index `n - 1`, wrapping as an `int` does. */
  lemma IndexOfNumber(input: string, n: int, msg: string)
    requires GetRemainder(input) == IntToString(n) && InInt32(n)
    ensures ParseTaskIndex(input, msg) == Ok(IntSub(n, UserIndexOffset))
  {
    ParseIntRoundTrip(n);
  }

  /** `isValidIndex` on a number outside `1..size` once one is taken off, as an `int`: false. */
  lemma OutOfRangeIndex(n: int, size: nat)
    requires InInt32(n) && size <= IntMax && !(1 <= n <= size)
    ensures !ValidIndex(IntSub(n, UserIndexOffset), size)
  {
    if n == IntMin {
      IntSubWraps(n);
    }
  }

  /** `mark <n>` for the n-th task (the list counts from 1) marks it as done. */
  lemma MarkCommandMarks(ds: seq<TaskData>, input: string, n: int)
    requires GetRemainder(input) == IntToString(n)
    requires 1 <= n <= |ds| && n <= IntMax
    ensures MarkPlan(ds, input, true) == Update(ds[n - 1 := ds[n - 1].(isDone := true)], Shown(ds[n - 1].(isDone := true)))
  {
    IndexOfNumber(input, n, InvalidTaskNumberMessage);
  }

  /** `unmark <n>` for the n-th task marks it as not done. */
  lemma UnmarkCommandUnmarks(ds: seq<TaskData>, input: string, n: int)
    requires GetRemainder(input) == IntToString(n)
    requires 1 <= n <= |ds| && n <= IntMax
    ensures MarkPlan(ds, input, false) == Update(ds[n - 1 := ds[n - 1].(isDone := false)], Shown(ds[n - 1].(isDone := false)))
  {
    IndexOfNumber(input, n, InvalidTaskNumberMessage);
  }

  /**
   * `mark <n>` and `unmark <n>` for any `int` outside `1..size` fail and
   * change nothing; `-2147483648` wraps to `2147483647` and is refused as well.
   */
  lemma MarkCommandRejectsOutOfRange(ds: seq<TaskData>, input: string, n: int, done: bool)
    requires GetRemainder(input) == IntToString(n)
    requires InInt32(n) && |ds| <= IntMax && !(1 <= n <= |ds|)
    ensures MarkPlan(ds, input, done) == Reject(InvalidTaskNumberMessage)
  {
    IndexOfNumber(input, n, InvalidTaskNumberMessage);
    OutOfRangeIndex(n, |ds|);
  }

  /** `delete <n>` for the n-th task removes it and reports it with the new size. */
  lemma DeleteCommandRemoves(ds: seq<TaskData>, input: string, n: int)
    requires GetRemainder(input) == IntToString(n)
    requires 1 <= n <= |ds| && n <= IntMax
    ensures DeletePlan(ds, input) == Update(ds[..n - 1] + ds[n..], Deleted(ds[n - 1], |ds| - 1))
  {
    IndexOfNumber(input, n, DeleteInvalidMessage);
  }

  /** `delete <n>` for any `int` outside `1..size` fails and changes nothing. */
  lemma DeleteCommandRejectsOutOfRange(ds: seq<TaskData>, input: string, n: int)
    requires GetRemainder(input) == IntToString(n)
    requires InInt32(n) && |ds| <= IntMax && !(1 <= n <= |ds|)
    ensures DeletePlan(ds, input) == Reject(DeleteInvalidMessage)
  {
    IndexOfNumber(input, n, DeleteInvalidMessage);
    OutOfRangeIndex(n, |ds|);
  }

  /** A typed `<word> <n>` line has `<word>` as its command word and the text of `n` as its remainder. */
  lemma NumberLine(word: string, n: int)
    requires word in Commands
    ensures GetCommandWord(Line(word, IntToString(n))) == word
    ensures GetRemainder(Line(word, IntToString(n))) == IntToString(n)
  {
    Typed(word, IntToString(n));
    IntTextClean(n);
  }

  // ---------------------------------------------------------------- find, on

  /** `find <keyword>` lists the tasks whose description contains the keyword, ignoring case, in list order. */
  lemma FindCommandSearches(ds: seq<TaskData>, keyword: string)
    requires keyword != "" && Clean(keyword)
    ensures FindPlan(ds, Line("find", keyword)) == Answer(Found(FindData(ds, keyword)))
  {
    RemainderOf("find", keyword);
    TrimClean(keyword);
  }

  /** `find` with only blanks after it fails with the find message. */
  lemma FindNeedsKeyword(ds: seq<TaskData>, blank: string)
    requires AllWhite(blank)
    ensures FindPlan(ds, Line("find", blank)) == Reject(FindMissingKeywordMessage)
  {
    RemainderOf("find", blank);
    TrimBlank(blank);
    assert Trim("") == "" by { TrimBlank(""); }
  }

  /** `on <date>` answers with the deadlines and events on that date, in list order. */
  lemma OnCommandLists(ds: seq<TaskData>, dateText: string)
    requires dateText != "" && Clean(dateText) && ParseDate(dateText, OnMissingDateMessage).Ok?
    ensures var date := ParseDate(dateText, OnMissingDateMessage).value;
      OnPlan(ds, Line("on", dateText)) == Answer(OnDate(date, OnData(ds, date)))
  {
    RemainderOf("on", dateText);
    TrimClean(dateText);
  }

  /** `on` with only blanks after it fails with the on message. */
  lemma OnNeedsDate(ds: seq<TaskData>, blank: string)
    requires AllWhite(blank)
    ensures OnPlan(ds, Line("on", blank)) == Reject(OnMissingDateMessage)
  {
    RemainderOf("on", blank);
    TrimBlank(blank);
  }

  // ---------------------------------------------------------------- the application object

  /**
   * The task values the constructor starts with: what `load` returns; none
   * when `load` throws a `ShinchanException`, which is shown and dropped; an
   * unchecked exception escapes the constructor.
   */
  function StartingTasks(file: Option<seq<string>>, readable: bool): (r: Result<seq<TaskData>>)
    ensures !r.Fail?
    ensures r.Crash? <==> file.Some? && readable && LoadData(file.value).Crash?
    ensures r.Ok? && r.value != [] ==> file.Some? && readable && LoadData(file.value) == Ok(r.value)
    ensures file.Some? && readable && LoadData(file.value).Ok? ==> r == Ok(LoadData(file.value).value)
    ensures file.None? || !readable || LoadData(file.value).Fail? ==> r == Ok([])
  {
    if file.None? || !readable then Ok([])
    else
      match LoadData(file.value)
      case Ok(ds) => Ok(ds)
      case Fail(_) => Ok([])
      case Crash(fault) => Crash(fault)
  }

  lemma DistinctRemoval(ts: seq<Task>, i: int)
    requires Distinct(ts) && 0 <= i < |ts|
    ensures Distinct(ts[..i] + ts[i + 1..])
  {
    var r := ts[..i] + ts[i + 1..];
    forall a, b | 0 <= a < b < |r| ensures r[a] != r[b] {
      var a' := if a < i then a else a + 1;
      var b' := if b < i then b else b + 1;
      assert r[a] == ts[a'] && r[b] == ts[b'];
    }
  }

  lemma ValuesOfRemoval(ts: seq<Task>, i: int)
    requires 0 <= i < |ts|
    ensures Values(ts[..i] + ts[i + 1..]) == Values(ts)[..i] + Values(ts)[i + 1..]
    ensures Values(ts)[i] == ts[i].Data()
  {
    ValuesOfConcat(ts[..i], ts[i + 1..]);
    ValuesOfSplit(ts, i);
    ValuesOfSplit(ts, i + 1);
    assert Values(ts)[i] == Values(ts[i..])[0];
  }

  /** A task at `i` of a list without repeats is in neither part around it. */
  lemma DistinctAround(ts: seq<Task>, i: int)
    requires Distinct(ts) && 0 <= i < |ts|
    ensures ts[i] !in ts[..i] && ts[i] !in ts[i + 1..]
  {
    assert forall j | 0 <= j < i :: ts[..i][j] == ts[j];
    assert forall j | i + 1 <= j < |ts| :: ts[i + 1..][j - i - 1] == ts[j];
  }

  /** Replacing the element between two parts. */
  lemma ReplaceMiddle(front: seq<TaskData>, x: TaskData, back: seq<TaskData>, y: TaskData)
    ensures (front + [x] + back)[|front| := y] == front + [y] + back
  {
  }

  /**
   * `Shinchan`: the task list and the storage it is saved to. The handlers
   * that may change the list take the plan of their line as a ghost
   * parameter, so that `handleInput` and the handler it calls speak of the
   * same plan; it does not exist when the program runs.
   */
  class Shinchan {
    const tasks: TaskList
    const storage: Storage

    /** Every task object is in the list once, so changing one task changes one entry. */
    predicate Valid()
      reads this, tasks
    {
      Distinct(tasks.tasks)
    }

    /** The state after carrying out `plan` from the task values `before` and the file `file`. */
    predicate Carries(plan: Plan, before: seq<TaskData>, writable: bool, file: Option<seq<string>>, r: Result<Reply>)
      reads this, tasks, tasks.tasks, storage
    {
      Valid() && r == Outcome(plan, writable) && Values(tasks.tasks) == After(plan, before)
      && storage.file == FileAfter(plan, writable, file) && storage.writable == writable
    }

    constructor (tasks: TaskList, storage: Storage)
      requires Distinct(tasks.tasks)
      ensures this.tasks == tasks && this.storage == storage && Valid()
    {
      this.tasks := tasks;
      this.storage := storage;
    }

    /**
     * `new Shinchan()` on a given storage: the tasks `load` returns, or an
     * empty list when it throws a `ShinchanException`.
     */
    static method Open(storage: Storage) returns (r: Result<Shinchan>)
      ensures r.Ok? <==> StartingTasks(storage.file, storage.readable).Ok?
      ensures r.Crash? ==> r.fault == StartingTasks(storage.file, storage.readable).fault
      ensures r.Ok? ==> fresh(r.value) && fresh(r.value.tasks) && r.value.storage == storage && r.value.Valid()
                        && Values(r.value.tasks.tasks) == StartingTasks(storage.file, storage.readable).value
    {
      var loaded := storage.Load();
      var list: TaskList;
      if loaded.Ok? {
        list := new TaskList.Copy(loaded.value);
      } else if loaded.Fail? {
        list := new TaskList();
      } else {
        return Crash(loaded.fault);
      }
      var app := new Shinchan(list, storage);
      r := Ok(app);
    }

    /** Appends a new task, saves the list and reports the task with the new size. */
    method AddAndSave(task: Task) returns (r: Result<Reply>)
      requires Valid() && task !in tasks.tasks
      modifies tasks, storage
      ensures Carries(AddPlan(old(Values(tasks.tasks)), task.Data()), old(Values(tasks.tasks)),
                      old(storage.writable), old(storage.file), r)
      ensures storage.readable == old(storage.readable)
    {
      ValuesOfSnoc(tasks.tasks, task);
      DistinctSnoc(tasks.tasks, task);
      tasks.Add(task);
      var saved := storage.Save(tasks.tasks);
      if saved.Ok? {
        r := Ok(Added(task.Data(), tasks.Size()));
      } else {
        r := Propagate(saved);
      }
    }

    /** `handleTodo`. */
    method HandleTodo(input: string, ghost plan: Plan) returns (r: Result<Reply>)
      requires Valid() && plan == TodoPlan(Values(tasks.tasks), input)
      modifies tasks, storage
      ensures Carries(plan, old(Values(tasks.tasks)),
                      old(storage.writable), old(storage.file), r)
      ensures storage.readable == old(storage.readable)
    {
      var description := GetRemainder(input);
      if description == "" {
        return Fail(TodoEmptyMessage);
      }
      var task := new Task.Todos(description);
      r := AddAndSave(task);
    }

    /** `handleDeadline`. */
    method HandleDeadline(input: string, ghost plan: Plan) returns (r: Result<Reply>)
      requires Valid() && plan == DeadlinePlan(Values(tasks.tasks), input)
      modifies tasks, storage
      ensures Carries(plan, old(Values(tasks.tasks)),
                      old(storage.writable), old(storage.file), r)
      ensures storage.readable == old(storage.readable)
    {
      if !Contains(input, ByMarker) {
        return Fail(DeadlineMissingByMessage);
      }
      var remainder := GetRemainder(input);
      var parts := SplitOnce(remainder, ByMarker);
      if |parts| < 2 {
        return Crash(ArrayIndexOutOfBounds);
      }
      var description := Trim(parts[0]);
      var dueText := Trim(parts[1]);
      if description == "" {
        return Fail(DeadlineEmptyMessage);
      }
      var due := ParseDateTime(dueText, DateTimeBadMessage);
      if !due.Ok? {
        return Propagate(due);
      }
      var task := new Task.Deadlines(description, due.value);
      r := AddAndSave(task);
    }

    /** `handleEvent`. */
    method HandleEvent(input: string, ghost plan: Plan) returns (r: Result<Reply>)
      requires Valid() && plan == EventPlan(Values(tasks.tasks), input)
      modifies tasks, storage
      ensures Carries(plan, old(Values(tasks.tasks)),
                      old(storage.writable), old(storage.file), r)
      ensures storage.readable == old(storage.readable)
    {
      var remainder := GetRemainder(input);
      if !Contains(remainder, FromMarker) || !Contains(remainder, ToMarker) {
        assert plan == Reject(EventMissingTimeMessage);
        return Fail(EventMissingTimeMessage);
      }
      var fromParts := SplitOnce(remainder, FromMarker);
      var description := Trim(fromParts[0]);
      if description == "" {
        assert plan == Reject(EventEmptyMessage);
        return Fail(EventEmptyMessage);
      }
      var timing := Trim(fromParts[1]);
      var toParts := SplitOnce(timing, ToMarker);
      var start := ParseDateTime(Trim(toParts[0]), DateTimeBadMessage);
      if !start.Ok? {
        assert plan == Raise(start);
        return Propagate(start);
      }
      if |toParts| < 2 {
        assert plan == Abort(ArrayIndexOutOfBounds);
        return Crash(ArrayIndexOutOfBounds);
      }
      var end := ParseDateTime(Trim(toParts[1]), DateTimeBadMessage);
      if !end.Ok? {
        assert plan == Raise(end);
        return Propagate(end);
      }
      assert plan == AddPlan(Values(tasks.tasks), TaskData(description, false, Event(start.value, end.value)));
      var task := new Task.Events(description, start.value, end.value);
      r := AddAndSave(task);
    }

    /** `handleOn`: the deadlines due on the date and the events covering it, in list order. */
    method HandleOn(input: string) returns (r: Result<Reply>)
      ensures r == Outcome(OnPlan(Values(tasks.tasks), input), storage.writable)
    {
      var dateText := GetRemainder(input);
      if dateText == "" {
        return Fail(OnMissingDateMessage);
      }
      var date := ParseDate(dateText, OnMissingDateMessage);
      if !date.Ok? {
        return Propagate(date);
      }
      var matching := TasksOn(date.value);
      r := Ok(OnDate(date.value, Values(matching)));
    }

    /** The loop of `handleOn`: the deadlines due on `date` and the events covering it, in list order. */
    method TasksOn(date: Date) returns (matching: seq<Task>)
      ensures Values(matching) == OnData(Values(tasks.tasks), date)
    {
      matching := [];
      var i := 0;
      while i < |tasks.tasks|
        invariant 0 <= i <= |tasks.tasks|
        invariant Values(matching) == OnData(Values(tasks.tasks[..i]), date)
      {
        var task := tasks.tasks[i];
        ValuesOfPrefix(tasks.tasks, i);
        OnSnoc(Values(tasks.tasks[..i]), task.Data(), date);
        if task.detail.Deadline? && DueDate(task.detail.dueDateTime) == date {
          ValuesOfSnoc(matching, task);
          matching := matching + [task];
        }
        if task.detail.Event? && OccursOn(task.detail.startDateTime, task.detail.endDateTime, date) {
          ValuesOfSnoc(matching, task);
          matching := matching + [task];
        }
        i := i + 1;
      }
      assert tasks.tasks[..i] == tasks.tasks;
    }

    /** `handleMark`. */
    method HandleMark(input: string, ghost plan: Plan) returns (r: Result<Reply>)
      requires Valid() && plan == MarkPlan(Values(tasks.tasks), input, true)
      modifies tasks.tasks, storage
      ensures Carries(plan, old(Values(tasks.tasks)),
                      old(storage.writable), old(storage.file), r)
      ensures storage.readable == old(storage.readable)
    {
      var index := ParseTaskIndex(input, InvalidTaskNumberMessage);
      if !index.Ok? {
        return Propagate(index);
      }
      if !ValidIndex(index.value, tasks.Size()) {
        return Fail(InvalidTaskNumberMessage);
      }
      var i := index.value;
      ghost var before := Values(tasks.tasks);
      ghost var front, back := Values(tasks.tasks[..i]), Values(tasks.tasks[i + 1..]);
      ValuesAround(tasks.tasks, i);
      ghost var changed := before[i].(isDone := true);
      assert MarkPlan(before, input, true) == Update(before[i := changed], Shown(changed));
      ReplaceMiddle(front, before[i], back, changed);
      var task := tasks.Get(i);
      DistinctAround(tasks.tasks, i);
      task.MarkAsDone();
      assert Values(tasks.tasks[..i]) == front && Values(tasks.tasks[i + 1..]) == back;
      ValuesAround(tasks.tasks, i);
      var saved := storage.Save(tasks.tasks);
      if saved.Ok? {
        r := Ok(Shown(task.Data()));
      } else {
        r := Propagate(saved);
      }
    }

    /** `handleUnmark`. */
    method HandleUnmark(input: string, ghost plan: Plan) returns (r: Result<Reply>)
      requires Valid() && plan == MarkPlan(Values(tasks.tasks), input, false)
      modifies tasks.tasks, storage
      ensures Carries(plan, old(Values(tasks.tasks)),
                      old(storage.writable), old(storage.file), r)
      ensures storage.readable == old(storage.readable)
    {
      var index := ParseTaskIndex(input, InvalidTaskNumberMessage);
      if !index.Ok? {
        return Propagate(index);
      }
      if !ValidIndex(index.value, tasks.Size()) {
        return Fail(InvalidTaskNumberMessage);
      }
      var i := index.value;
      ghost var before := Values(tasks.tasks);
      ghost var front, back := Values(tasks.tasks[..i]), Values(tasks.tasks[i + 1..]);
      ValuesAround(tasks.tasks, i);
      ghost var changed := before[i].(isDone := false);
      assert MarkPlan(before, input, false) == Update(before[i := changed], Shown(changed));
      ReplaceMiddle(front, before[i], back, changed);
      var task := tasks.Get(i);
      DistinctAround(tasks.tasks, i);
      task.MarkAsUndone();
      assert Values(tasks.tasks[..i]) == front && Values(tasks.tasks[i + 1..]) == back;
      ValuesAround(tasks.tasks, i);
      var saved := storage.Save(tasks.tasks);
      if saved.Ok? {
        r := Ok(Shown(task.Data()));
      } else {
        r := Propagate(saved);
      }
    }

    /** `handleDelete`. */
    method HandleDelete(input: string, ghost plan: Plan) returns (r: Result<Reply>)
      requires Valid() && plan == DeletePlan(Values(tasks.tasks), input)
      modifies tasks, storage
      ensures Carries(plan, old(Values(tasks.tasks)),
                      old(storage.writable), old(storage.file), r)
      ensures storage.readable == old(storage.readable)
    {
      var index := ParseTaskIndex(input, DeleteInvalidMessage);
      if !index.Ok? {
        return Propagate(index);
      }
      if !ValidIndex(index.value, tasks.Size()) {
        return Fail(DeleteInvalidMessage);
      }
      var i := index.value;
      ghost var rest := tasks.tasks[..i] + tasks.tasks[i + 1..];
      ghost var restValues := Values(rest);
      ghost var before := Values(tasks.tasks);
      assert DeletePlan(before, input) == Update(before[..i] + before[i + 1..], Deleted(before[i], |before| - 1));
      ValuesOfRemoval(tasks.tasks, i);
      DistinctRemoval(tasks.tasks, i);
      var removed := tasks.Remove(i);
      assert tasks.tasks == rest;
      assert Values(tasks.tasks) == restValues;
      var saved := storage.Save(tasks.tasks);
      if saved.Ok? {
        r := Ok(Deleted(removed.Data(), tasks.Size()));
      } else {
        r := Propagate(saved);
      }
    }

    /** `handleFind`: a keyword that is not blank, then `TaskList.find`. */
    method HandleFind(input: string) returns (r: Result<Reply>)
      ensures r == Outcome(FindPlan(Values(tasks.tasks), input), storage.writable)
    {
      var keyword := GetRemainder(input);
      if Trim(keyword) == "" {
        return Fail(FindMissingKeywordMessage);
      }
      var matches := tasks.Find(keyword);
      r := Ok(Found(Values(matches)));
    }

    /**
     * `handleInput`: an empty line is refused, then the command word picks
     * the handler; the list, the data file and the result are those of the
     * line's plan. `Exits(r)` is the boolean the method returns.
     */
    method HandleInput(input: string) returns (r: Result<Reply>)
      requires Valid()
      modifies tasks, storage, tasks.tasks
      ensures Carries(PlanFor(old(Values(tasks.tasks)), input), old(Values(tasks.tasks)),
                      old(storage.writable), old(storage.file), r)
      ensures storage.readable == old(storage.readable)
    {
      if input == "" {
        return Fail(EmptyInputMessage);
      }
      var command := CommandOf(GetCommandWord(input));
      if Changes(command) {
        r := HandleChange(input, command);
      } else {
        r := HandleQuery(input, command);
      }
    }

    /** The cases of `handleInput` whose handler adds, marks or deletes a task. */
    method HandleChange(input: string, command: Command) returns (r: Result<Reply>)
      requires Valid() && input != "" && command == CommandOf(GetCommandWord(input)) && Changes(command)
      modifies tasks, storage, tasks.tasks
      ensures Carries(PlanFor(old(Values(tasks.tasks)), input), old(Values(tasks.tasks)),
                      old(storage.writable), old(storage.file), r)
      ensures storage.readable == old(storage.readable)
    {
      ghost var ds := Values(tasks.tasks);
      match command
      case TodoWord =>
        DispatchTodo(ds, input);
        r := HandleTodo(input, PlanFor(ds, input));
      case DeadlineWord =>
        DispatchDeadline(ds, input);
        r := HandleDeadline(input, PlanFor(ds, input));
      case EventWord =>
        DispatchEvent(ds, input);
        r := HandleEvent(input, PlanFor(ds, input));
      case MarkWord =>
        DispatchMark(ds, input);
        r := HandleMark(input, PlanFor(ds, input));
      case UnmarkWord =>
        DispatchUnmark(ds, input);
        r := HandleUnmark(input, PlanFor(ds, input));
      case DeleteWord =>
        DispatchDelete(ds, input);
        r := HandleDelete(input, PlanFor(ds, input));
    }

    /** The cases of `handleInput` that only answer: nothing changes. */
    method HandleQuery(input: string, command: Command) returns (r: Result<Reply>)
      requires input != "" && command == CommandOf(GetCommandWord(input)) && !Changes(command)
      ensures !PlanFor(Values(tasks.tasks), input).Update?
      ensures r == Outcome(PlanFor(Values(tasks.tasks), input), storage.writable)
    {
      ghost var ds := Values(tasks.tasks);
      match command
      case FindWord =>
        DispatchFind(ds, input);
        r := HandleFind(input);
      case OnWord =>
        DispatchOn(ds, input);
        r := HandleOn(input);
      case ListWord =>
        DispatchList(ds, input);
        r := Ok(Listing(Values(tasks.tasks)));
      case ByeWord =>
        DispatchBye(ds, input);
        r := Ok(Bye);
      case OtherWord =>
        DispatchOther(ds, input);
        r := Fail(UnknownCommandMessage);
    }
  }
}
