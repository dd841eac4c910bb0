/**
 * The due-task notifier: pick the unfinished tasks due today or tomorrow, split them into
 * the two days, and build at most one message per day. Dates are millisecond timestamps;
 * a timestamp's local day is its day number in a time zone `offset` milliseconds ahead of
 * UTC, which is what clearing the hours of a local date compares.
 */
module Notification {
  import opened Types
  import opened Sequences

  const MsPerDay: int := 86400000

  /** The local day of a timestamp: two timestamps share it iff they have the same local midnight. */
  function LocalDay(t: int, offset: int): int {
    (t + offset) / MsPerDay
  }

  /** The filter test of `checkDueTasks`. */
  predicate IsDue(t: Task, today: int, offset: int) {
    t.dueDate.Some?
    && (LocalDay(t.dueDate.value, offset) == today || LocalDay(t.dueDate.value, offset) == today + 1)
    && t.status != Completed
  }

  /** `checkDueTasks`: the unfinished tasks due today or tomorrow, in list order. */
  function CheckDueTasks(tasks: seq<Task>, today: int, offset: int): (r: seq<Task>)
    ensures IsSubseq(r, tasks)
    ensures forall i :: 0 <= i < |r| ==> r[i] in tasks && IsDue(r[i], today, offset)
    ensures forall t :: t in tasks && IsDue(t, today, offset) ==> t in r
  {
    if tasks == [] then []
    else
      var rest := CheckDueTasks(tasks[1..], today, offset);
      assert tasks == [tasks[0]] + tasks[1..];
      if IsDue(tasks[0], today, offset) then
        IsSubseqCons(tasks[0], rest, tasks[1..]);
        [tasks[0]] + rest
      else
        IsSubseqSkip(tasks[0], rest, tasks[1..]);
        rest
  }

  /** The due filter keeps every occurrence of a due task and none of any other task. */
  lemma {:induction false} CheckDueTasksCount(tasks: seq<Task>, today: int, offset: int, t: Task)
    ensures multiset(CheckDueTasks(tasks, today, offset))[t]
            == if IsDue(t, today, offset) then multiset(tasks)[t] else 0
  {
    if tasks != [] {
      CheckDueTasksCount(tasks[1..], today, offset, t);
      assert tasks == [tasks[0]] + tasks[1..];
      assert multiset(tasks) == multiset{tasks[0]} + multiset(tasks[1..]);
    }
  }

  /** The tasks of a list whose due date falls on local day `day`, in list order. */
  function DueOn(tasks: seq<Task>, day: int, offset: int): (r: seq<Task>)
    ensures IsSubseq(r, tasks)
    ensures forall i :: 0 <= i < |r| ==>
      r[i] in tasks && r[i].dueDate.Some? && LocalDay(r[i].dueDate.value, offset) == day
  {
    if tasks == [] then []
    else
      var rest := DueOn(tasks[1..], day, offset);
      assert tasks == [tasks[0]] + tasks[1..];
      if tasks[0].dueDate.Some? && LocalDay(tasks[0].dueDate.value, offset) == day then
        IsSubseqCons(tasks[0], rest, tasks[1..]);
        [tasks[0]] + rest
      else
        IsSubseqSkip(tasks[0], rest, tasks[1..]);
        rest
  }

  /** The day filter keeps every occurrence of a task due that day and none of any other task. */
  lemma {:induction false} DueOnCount(tasks: seq<Task>, day: int, offset: int, t: Task)
    ensures multiset(DueOn(tasks, day, offset))[t]
            == if t.dueDate.Some? && LocalDay(t.dueDate.value, offset) == day then multiset(tasks)[t] else 0
  {
    if tasks != [] {
      DueOnCount(tasks[1..], day, offset, t);
      assert tasks == [tasks[0]] + tasks[1..];
      assert multiset(tasks) == multiset{tasks[0]} + multiset(tasks[1..]);
    }
  }

  /**
   * The today and tomorrow groups split the due tasks: together they hold each due task
   * exactly as often as the due list does, and no task is in both.
   */
  lemma DayGroupsPartition(due: seq<Task>, today: int, offset: int)
    requires forall i :: 0 <= i < |due| ==> IsDue(due[i], today, offset)
    ensures multiset(DueOn(due, today, offset)) + multiset(DueOn(due, today + 1, offset)) == multiset(due)
    ensures var a, b := DueOn(due, today, offset), DueOn(due, today + 1, offset);
      forall i, j :: 0 <= i < |a| && 0 <= j < |b| ==> a[i] != b[j]
  {
    var sum := multiset(DueOn(due, today, offset)) + multiset(DueOn(due, today + 1, offset));
    forall t ensures sum[t] == multiset(due)[t] {
      DueOnCount(due, today, offset, t);
      DueOnCount(due, today + 1, offset, t);
      if t in due {
        var i :| 0 <= i < |due| && due[i] == t;
        assert IsDue(due[i], today, offset);
      }
    }
  }

  // ----- Messages -----

  datatype Message = Message(title: string, body: string)

  /** The decimal numeral of `n`, as a template literal prints a count. */
  function NatToString(n: nat): string
    decreases n
  {
    if n < 10 then [('0' as int + n) as char]
    else NatToString(n / 10) + [('0' as int + n % 10) as char]
  }

  /** The number a string of decimal digits denotes. */
  function DecimalValue(s: string): int {
    if s == [] then 0
    else DecimalValue(s[..|s| - 1]) * 10 + (s[|s| - 1] as int - '0' as int)
  }

  /** The numeral is non-empty, all digits, and reads back as `n`. */
  lemma {:induction false} NatToStringRoundTrip(n: nat)
    ensures |NatToString(n)| > 0
    ensures forall i :: 0 <= i < |NatToString(n)| ==> '0' <= NatToString(n)[i] <= '9'
    ensures DecimalValue(NatToString(n)) == n
  {
    if n >= 10 {
      NatToStringRoundTrip(n / 10);
      var s := NatToString(n);
      assert s[..|s| - 1] == NatToString(n / 10);
    }
  }

  /** "You have N task(s) due <when>!"; the plural only for more than one task. */
  function CountBody(n: nat, when: string): string {
    "You have " + NatToString(n) + " task" + (if n > 1 then "s" else "") + " due " + when + "!"
  }

  /** `notifyDueTasks`: the messages shown, today's before tomorrow's, each only when its group is non-empty. */
  function NotifyDueTasks(tasks: seq<Task>, today: int, offset: int): seq<Message> {
    var due := CheckDueTasks(tasks, today, offset);
    if |due| > 0 then
      var todayTasks := DueOn(due, today, offset);
      var tomorrowTasks := DueOn(due, today + 1, offset);
      (if |todayTasks| > 0 then [Message("Tasks Due Today", CountBody(|todayTasks|, "today"))] else [])
      + (if |tomorrowTasks| > 0 then [Message("Tasks Due Tomorrow", CountBody(|tomorrowTasks|, "tomorrow"))] else [])
    else []
  }

  /**
   * No message when nothing is due; otherwise exactly one message per non-empty day group,
   * today's first, each counting its group, and the two counts add up to the number of due tasks.
   */
  lemma {:induction false} NotifyDueTasksShape(tasks: seq<Task>, today: int, offset: int)
    ensures var due := CheckDueTasks(tasks, today, offset);
      var m := NotifyDueTasks(tasks, today, offset);
      var nToday := |DueOn(due, today, offset)|;
      var nTomorrow := |DueOn(due, today + 1, offset)|;
      && nToday + nTomorrow == |due|
      && (m == [] <==> due == [])
      && |m| == (if nToday > 0 then 1 else 0) + (if nTomorrow > 0 then 1 else 0)
      && (nToday > 0 ==> m[0] == Message("Tasks Due Today", CountBody(nToday, "today")))
      && (nTomorrow > 0 ==> m[|m| - 1] == Message("Tasks Due Tomorrow", CountBody(nTomorrow, "tomorrow")))
  {
    var due := CheckDueTasks(tasks, today, offset);
    var a, b := DueOn(due, today, offset), DueOn(due, today + 1, offset);
    DayGroupsPartition(due, today, offset);
    assert |multiset(a) + multiset(b)| == |multiset(a)| + |multiset(b)|;
    assert |a| + |b| == |due|;
  }
}
