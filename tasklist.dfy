/**
 * TaskLists: the ordered list of tasks the application keeps. `add` and
 * `remove` change it in place; `find` and `getUpcomingDeadlines` walk it
 * and collect matching tasks in list order. The wall clock that
 * `getUpcomingDeadlines` reads is passed in as `now`.
 */
module TaskLists {
  import opened Text
  import opened Calendar
  import opened Tasks

  // ---------------------------------------------------------------- find

  /** `find`'s test: the lowercased description contains the trimmed, lowercased keyword. */
  predicate Matches(description: string, keyword: string) {
    Contains(Lower(description), Lower(Trim(keyword)))
  }

  /** The task values `find` collects, in list order. */
  function FindData(ds: seq<TaskData>, keyword: string): (r: seq<TaskData>)
    ensures |r| <= |ds|
  {
    if ds == [] then []
    else
      var last := ds[|ds| - 1];
      FindData(ds[..|ds| - 1], keyword) + (if Matches(last.description, keyword) then [last] else [])
  }

  /** Searching one more task value adds it at the end when it matches. */
  lemma FindSnoc(ds: seq<TaskData>, d: TaskData, keyword: string)
    ensures FindData(ds + [d], keyword)
         == FindData(ds, keyword) + (if Matches(d.description, keyword) then [d] else [])
  {
    assert (ds + [d])[..|ds|] == ds;
  }

  /** A task value is found exactly when it is in the list and its description matches. */
  lemma {:induction false} FindMembership(ds: seq<TaskData>, keyword: string, d: TaskData)
    ensures d in FindData(ds, keyword) <==> d in ds && Matches(d.description, keyword)
  {
    if ds != [] {
      var init := ds[..|ds| - 1];
      FindMembership(init, keyword, d);
      assert ds == init + [ds[|ds| - 1]];
    }
  }

  /** Searching a concatenation searches each part and keeps their order. */
  lemma {:induction false} FindConcat(a: seq<TaskData>, b: seq<TaskData>, keyword: string)
    ensures FindData(a + b, keyword) == FindData(a, keyword) + FindData(b, keyword)
  {
    if b == [] {
      assert a + b == a;
    } else {
      var init := b[..|b| - 1];
      assert (a + b)[..|a + b| - 1] == a + init;
      FindConcat(a, init, keyword);
    }
  }

  /** Every string contains the empty string, at position 0. */
  lemma ContainsEmpty(s: string)
    ensures Contains(s, "")
  {
    assert OccursAt(s, "", 0);
    ContainsAt(s, "", 0);
  }

  /** A blank keyword matches every task, so `find` returns the whole list. */
  lemma {:induction false} FindBlankKeyword(ds: seq<TaskData>, keyword: string)
    requires Trim(keyword) == ""
    ensures FindData(ds, keyword) == ds
  {
    if ds != [] {
      FindBlankKeyword(ds[..|ds| - 1], keyword);
      ContainsEmpty(Lower(ds[|ds| - 1].description));
      assert Lower(Trim(keyword)) == "";
    }
  }

  // ---------------------------------------------------------------- upcoming deadlines

  /** `now.plusDays(days)`: the same time of day, `days` calendar days later (or earlier). */
  function WindowEnd(now: DateTime, days: int): DateTime {
    now.(date := PlusDays(now.date, days))
  }

  /** A deadline due no earlier than `now` and no later than `future`. */
  predicate DueWithin(d: Detail, now: DateTime, future: DateTime) {
    d.Deadline? && !DateTimeBefore(d.dueDateTime, now) && !DateTimeBefore(future, d.dueDateTime)
  }

  /** The task values `getUpcomingDeadlines` collects, in list order. */
  function UpcomingData(ds: seq<TaskData>, now: DateTime, days: int): (r: seq<TaskData>)
    ensures |r| <= |ds|
  {
    if ds == [] then []
    else
      var last := ds[|ds| - 1];
      UpcomingData(ds[..|ds| - 1], now, days)
      + (if DueWithin(last.detail, now, WindowEnd(now, days)) then [last] else [])
  }

  /** Scanning one more task value adds it at the end when it is due inside the window. */
  lemma UpcomingSnoc(ds: seq<TaskData>, d: TaskData, now: DateTime, days: int)
    ensures UpcomingData(ds + [d], now, days)
         == UpcomingData(ds, now, days) + (if DueWithin(d.detail, now, WindowEnd(now, days)) then [d] else [])
  {
    assert (ds + [d])[..|ds|] == ds;
  }

  /** A task value is reported exactly when it is a deadline in the list due inside the window. */
  lemma {:induction false} UpcomingMembership(ds: seq<TaskData>, now: DateTime, days: int, d: TaskData)
    ensures d in UpcomingData(ds, now, days)
        <==> d in ds && d.detail.Deadline?
             && !DateTimeBefore(d.detail.dueDateTime, now)
             && !DateTimeBefore(WindowEnd(now, days), d.detail.dueDateTime)
  {
    if ds != [] {
      var init := ds[..|ds| - 1];
      UpcomingMembership(init, now, days, d);
      assert ds == init + [ds[|ds| - 1]];
    }
  }

  /** Going back a number of days moves a date strictly backwards. */
  lemma {:induction false} PlusDaysBackward(d: Date, n: int)
    requires n < 0
    ensures DateBefore(PlusDays(d, n), d)
    decreases -n
  {
    if n < -1 {
      PlusDaysBackward(PrevDay(d), n + 1);
    }
  }

  /** With a negative number of days the window is empty: nothing is reported. */
  lemma NegativeWindowIsEmpty(ds: seq<TaskData>, now: DateTime, days: int)
    requires days < 0
    ensures UpcomingData(ds, now, days) == []
  {
    PlusDaysBackward(now.date, days);
    if UpcomingData(ds, now, days) != [] {
      var d := UpcomingData(ds, now, days)[0];
      UpcomingMembership(ds, now, days, d);
      assert false;
    }
  }

  /** A window of zero days holds exactly the deadlines due at `now` itself. */
  lemma ZeroWindowIsNow(ds: seq<TaskData>, now: DateTime, d: TaskData)
    ensures d in UpcomingData(ds, now, 0) <==> d in ds && d.detail == Deadline(now)
  {
    UpcomingMembership(ds, now, 0, d);
  }

  /** `TaskList`: the tasks, in order, as one mutable list. */
  class TaskList {
    var tasks: seq<Task>

    /** `new TaskList()`: no tasks. */
    constructor ()
      ensures tasks == []
    {
      tasks := [];
    }

    /** `new TaskList(initialTasks)`: a copy of the given tasks, in their order. */
    constructor Copy(initialTasks: seq<Task>)
      ensures tasks == initialTasks
    {
      tasks := initialTasks;
    }

    /** `add`: the task goes last; the tasks before it stay as they were. */
    method Add(task: Task)
      modifies this
      ensures tasks == old(tasks) + [task]
      ensures Size() == old(Size()) + 1 && Get(old(Size())) == task
    {
      tasks := tasks + [task];
    }

    /**
     * `remove(index)`: takes out and returns the task at `index`; the rest
     * keep their order. `List.remove` throws for an index outside the list.
     */
    method Remove(index: int) returns (removed: Task)
      requires 0 <= index < |tasks|
      modifies this
      ensures removed == old(tasks)[index]
      ensures tasks == old(tasks)[..index] + old(tasks)[index + 1..]
      ensures Size() == old(Size()) - 1
    {
      removed := tasks[index];
      tasks := tasks[..index] + tasks[index + 1..];
    }

    /** `get(index)`; `List.get` throws for an index outside the list. */
    function Get(index: int): Task
      reads this
      requires 0 <= index < |tasks|
    {
      tasks[index]
    }

    /** `size`. */
    function Size(): nat
      reads this
    {
      |tasks|
    }

    /** `find`: the tasks whose description matches the keyword, in list order. */
    method Find(keyword: string) returns (matches: seq<Task>)
      ensures Values(matches) == FindData(Values(tasks), keyword)
      ensures forall t :: t in matches ==> t in tasks
    {
      var needle := Lower(Trim(keyword));
      matches := [];
      var i := 0;
      while i < |tasks|
        invariant 0 <= i <= |tasks|
        invariant Values(matches) == FindData(Values(tasks[..i]), keyword)
        invariant forall t :: t in matches ==> t in tasks
      {
        var task := tasks[i];
        ValuesOfPrefix(tasks, i);
        FindSnoc(Values(tasks[..i]), task.Data(), keyword);
        if Contains(Lower(task.description), needle) {
          ValuesOfSnoc(matches, task);
          matches := matches + [task];
        }
        i := i + 1;
      }
      assert tasks[..i] == tasks;
    }

    /**
     * `getUpcomingDeadlines(days)` at the moment `now`: the deadlines due
     * from `now` to `now.plusDays(days)`, both included, in list order.
     */
    method GetUpcomingDeadlines(now: DateTime, days: int) returns (upcoming: seq<Task>)
      ensures Values(upcoming) == UpcomingData(Values(tasks), now, days)
      ensures forall t :: t in upcoming ==> t in tasks
    {
      var future := WindowEnd(now, days);
      upcoming := [];
      var i := 0;
      while i < |tasks|
        invariant 0 <= i <= |tasks|
        invariant Values(upcoming) == UpcomingData(Values(tasks[..i]), now, days)
        invariant forall t :: t in upcoming ==> t in tasks
      {
        var task := tasks[i];
        ValuesOfPrefix(tasks, i);
        UpcomingSnoc(Values(tasks[..i]), task.Data(), now, days);
        if task.detail.Deadline? {
          var deadline := task.detail.dueDateTime;
          if !DateTimeBefore(deadline, now) && !DateTimeBefore(future, deadline) {
            ValuesOfSnoc(upcoming, task);
            upcoming := upcoming + [task];
          }
        }
        i := i + 1;
      }
      assert tasks[..i] == tasks;
    }
  }
}
