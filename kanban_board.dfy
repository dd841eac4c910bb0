/**
 * The board view: the searched tasks split into three status columns, each sorted by
 * priority, due date and creation; dropping a card on a column sets the task's status.
 */
module KanbanBoard {
  import opened Types
  import opened Sequences
  import opened TaskOrder
  import opened Sorting
  import opened Search
  import opened TaskOps
  import Store

  /** The board's columns, left to right: To Do, In Progress, Completed. */
  const Columns: seq<Status> := [Todo, InProgress, Completed]

  /** A column's comparator: priority rank decides, then DueThenCreated. */
  function BoardCompare(a: Task, b: Task): int {
    if PriorityRank(a.priority) != PriorityRank(b.priority) then PriorityRank(a.priority) - PriorityRank(b.priority)
    else DueThenCreated(a, b)
  }

  /** The comparator puts `a` first exactly when its board key is smaller, and ties exactly equal keys. */
  lemma BoardCompareAgreesWithKey(a: Task, b: Task)
    ensures BoardCompare(a, b) < 0 <==> KeyLt(BoardKey(a), BoardKey(b))
    ensures BoardCompare(a, b) == 0 <==> BoardKey(a) == BoardKey(b)
    ensures BoardCompare(a, b) > 0 <==> KeyLt(BoardKey(b), BoardKey(a))
  {
  }

  lemma BoardCompareIsTotalPreorder()
    ensures IsTotalPreorder(BoardCompare)
  {
    forall a, b ensures BoardCompare(a, b) > 0 <==> BoardCompare(b, a) < 0 {
      BoardCompareAgreesWithKey(a, b);
      BoardCompareAgreesWithKey(b, a);
    }
    forall a, b, c | BoardCompare(a, b) <= 0 && BoardCompare(b, c) <= 0
      ensures BoardCompare(a, c) <= 0
    {
      BoardCompareAgreesWithKey(a, b);
      BoardCompareAgreesWithKey(b, c);
      BoardCompareAgreesWithKey(a, c);
      KeyLtIsStrictTotal(BoardKey(a), BoardKey(b), BoardKey(c));
      KeyLtIsStrictTotal(BoardKey(c), BoardKey(a), BoardKey(b));
    }
  }

  /** The tasks of one status, in list order. */
  function StatusFilter(tasks: seq<Task>, s: Status): (r: seq<Task>)
    ensures IsSubseq(r, tasks)
    ensures forall i :: 0 <= i < |r| ==> r[i] in tasks && r[i].status == s
    ensures forall t :: t in tasks && t.status == s ==> t in r
  {
    if tasks == [] then []
    else
      var rest := StatusFilter(tasks[1..], s);
      assert tasks == [tasks[0]] + tasks[1..];
      if tasks[0].status == s then
        IsSubseqCons(tasks[0], rest, tasks[1..]);
        [tasks[0]] + rest
      else
        IsSubseqSkip(tasks[0], rest, tasks[1..]);
        rest
  }

  /**
   * `getColumnTasks`: the searched tasks of one status, as a permutation of them in which
   * no task's board key is above a later task's key.
   */
  function ColumnTasks(filtered: seq<Task>, s: Status): (r: seq<Task>)
    ensures multiset(r) == multiset(StatusFilter(filtered, s))
    ensures forall i :: 0 <= i < |r| ==> r[i].status == s
    ensures forall i, j :: 0 <= i < j < |r| ==> !KeyLt(BoardKey(r[j]), BoardKey(r[i]))
  {
    BoardCompareIsTotalPreorder();
    var col := StatusFilter(filtered, s);
    var r := SortBy(col, BoardCompare);
    forall i | 0 <= i < |r| ensures r[i].status == s {
      assert r[i] in multiset(col);
    }
    forall i, j | 0 <= i < j < |r| ensures !KeyLt(BoardKey(r[j]), BoardKey(r[i])) {
      BoardCompareAgreesWithKey(r[i], r[j]);
    }
    r
  }

  /** The filter keeps every occurrence of a task of status `s` and none of any other task. */
  lemma {:induction false} StatusFilterCount(tasks: seq<Task>, s: Status, t: Task)
    ensures multiset(StatusFilter(tasks, s))[t] == if t.status == s then multiset(tasks)[t] else 0
  {
    if tasks != [] {
      StatusFilterCount(tasks[1..], s, t);
      assert tasks == [tasks[0]] + tasks[1..];
      assert multiset(tasks) == multiset{tasks[0]} + multiset(tasks[1..]);
    }
  }

  /** The three status filters split a list: every task lands in exactly one of them, as often as it occurs. */
  lemma StatusFiltersPartition(tasks: seq<Task>)
    ensures multiset(StatusFilter(tasks, Todo)) + multiset(StatusFilter(tasks, InProgress))
            + multiset(StatusFilter(tasks, Completed)) == multiset(tasks)
  {
    var sum := multiset(StatusFilter(tasks, Todo)) + multiset(StatusFilter(tasks, InProgress))
               + multiset(StatusFilter(tasks, Completed));
    forall t ensures sum[t] == multiset(tasks)[t] {
      StatusFilterCount(tasks, Todo, t);
      StatusFilterCount(tasks, InProgress, t);
      StatusFilterCount(tasks, Completed, t);
    }
  }

  /** The board shows every searched task exactly once, in the column of its status. */
  lemma BoardShowsEachTaskOnce(tasks: seq<Task>, search: string)
    ensures var f := FilterTasks(tasks, search);
      multiset(ColumnTasks(f, Columns[0])) + multiset(ColumnTasks(f, Columns[1]))
      + multiset(ColumnTasks(f, Columns[2])) == multiset(f)
  {
    StatusFiltersPartition(FilterTasks(tasks, search));
  }

  /**
   * `handleDrop`: the dropped task (every task carrying `taskId`) takes the column's status;
   * nothing else about any task changes, and an unknown id changes nothing.
   */
  method HandleDrop(store: Store.TaskStore, taskId: string, status: Status)
    modifies store, store.storage
    ensures |store.tasks| == |old(store.tasks)|
    ensures forall i :: 0 <= i < |store.tasks| ==>
      store.tasks[i] == if old(store.tasks[i]).id == taskId then old(store.tasks[i]).(status := status)
                        else old(store.tasks[i])
    ensures store.tags == old(store.tags) && store.theme == old(store.theme) && store.currentView == old(store.currentView)
    ensures store.storage.tasks == Some(store.tasks)
    ensures store.storage.tags == old(store.storage.tags) && store.storage.theme == old(store.storage.theme)
    ensures old(store.Synced()) ==> store.Synced()
    ensures old(Consistent(store.tasks, store.tags)) ==> Consistent(store.tasks, store.tags)
  {
    store.UpdateTask(taskId, StatusPatch(status));
  }
}
