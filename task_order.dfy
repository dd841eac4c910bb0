/**
 * The ranks and tie-breaks the list and the board sort by, and a reference ordering: each
 * task's sort key, compared lexicographically.
 */
module TaskOrder {
  import opened Types

  /** todo before in-progress before completed. */
  function StatusRank(s: Status): int {
    match s
    case Todo => 0
    case InProgress => 1
    case Completed => 2
  }

  /** high before medium before low. */
  function PriorityRank(p: Priority): int {
    match p
    case High => 0
    case Medium => 1
    case Low => 2
  }

  /**
   * The comparator's last steps, shared by both views: with both due dates present their
   * difference (so equal due dates compare equal), a dated task before an undated one, and
   * between two undated tasks the later creation first.
   */
  function DueThenCreated(a: Task, b: Task): int {
    if a.dueDate.Some? && b.dueDate.Some? then a.dueDate.value - b.dueDate.value
    else if a.dueDate.Some? && b.dueDate.None? then -1
    else if a.dueDate.None? && b.dueDate.Some? then 1
    else b.createdAt - a.createdAt
  }

  /** A sort key; keys are compared field by field, in declaration order. */
  datatype Key = Key(status: int, priority: int, undated: int, time: int)

  predicate KeyLt(a: Key, b: Key) {
    a.status < b.status
    || (a.status == b.status && a.priority < b.priority)
    || (a.status == b.status && a.priority == b.priority && a.undated < b.undated)
    || (a.status == b.status && a.priority == b.priority && a.undated == b.undated && a.time < b.time)
  }

  /** Status rank, priority rank, dated first, then due time or, undated, newest creation first. */
  function ListKey(t: Task): Key {
    Key(StatusRank(t.status), PriorityRank(t.priority),
        if t.dueDate.Some? then 0 else 1,
        if t.dueDate.Some? then t.dueDate.value else -t.createdAt)
  }

  /** The list key without the status. */
  function BoardKey(t: Task): Key {
    ListKey(t).(status := 0)
  }

  /** The key order is a strict order in which two keys are equal or one is below the other. */
  lemma KeyLtIsStrictTotal(a: Key, b: Key, c: Key)
    ensures !KeyLt(a, a)
    ensures KeyLt(a, b) && KeyLt(b, c) ==> KeyLt(a, c)
    ensures a == b || KeyLt(a, b) || KeyLt(b, a)
  {
  }
}
