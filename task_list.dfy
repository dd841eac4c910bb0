/** The list view: the searched tasks sorted by status, priority, due date and creation. */
module TaskList {
  import opened Types
  import opened TaskOrder
  import opened Sorting
  import opened Search

  /** The list's comparator: status rank decides, then priority rank, then DueThenCreated. */
  function ListCompare(a: Task, b: Task): int {
    if StatusRank(a.status) != StatusRank(b.status) then StatusRank(a.status) - StatusRank(b.status)
    else if PriorityRank(a.priority) != PriorityRank(b.priority) then PriorityRank(a.priority) - PriorityRank(b.priority)
    else DueThenCreated(a, b)
  }

  /** The comparator puts `a` first exactly when its key is smaller, and ties exactly equal keys. */
  lemma ListCompareAgreesWithKey(a: Task, b: Task)
    ensures ListCompare(a, b) < 0 <==> KeyLt(ListKey(a), ListKey(b))
    ensures ListCompare(a, b) == 0 <==> ListKey(a) == ListKey(b)
    ensures ListCompare(a, b) > 0 <==> KeyLt(ListKey(b), ListKey(a))
  {
  }

  /** Swapping the arguments flips the sign: sign(cmp(a, b)) == -sign(cmp(b, a)). */
  lemma ListCompareAntisymmetric(a: Task, b: Task)
    ensures ListCompare(a, b) < 0 <==> ListCompare(b, a) > 0
    ensures ListCompare(a, b) == 0 <==> ListCompare(b, a) == 0
  {
    ListCompareAgreesWithKey(a, b);
    ListCompareAgreesWithKey(b, a);
  }

  lemma ListCompareIsTotalPreorder()
    ensures IsTotalPreorder(ListCompare)
  {
    forall a, b ensures ListCompare(a, b) > 0 <==> ListCompare(b, a) < 0 {
      ListCompareAntisymmetric(a, b);
    }
    forall a, b, c | ListCompare(a, b) <= 0 && ListCompare(b, c) <= 0
      ensures ListCompare(a, c) <= 0
    {
      ListCompareAgreesWithKey(a, b);
      ListCompareAgreesWithKey(b, c);
      ListCompareAgreesWithKey(a, c);
      KeyLtIsStrictTotal(ListKey(a), ListKey(b), ListKey(c));
      KeyLtIsStrictTotal(ListKey(c), ListKey(a), ListKey(b));
    }
  }

  /**
   * The rendered list: a permutation of the searched tasks in which no task's key is above
   * a later task's key, so statuses ascend, priorities ascend within a status, and so on.
   */
  function ListView(tasks: seq<Task>, search: string): (r: seq<Task>)
    ensures multiset(r) == multiset(FilterTasks(tasks, search))
    ensures forall i, j :: 0 <= i < j < |r| ==> !KeyLt(ListKey(r[j]), ListKey(r[i]))
  {
    ListCompareIsTotalPreorder();
    var r := SortBy(FilterTasks(tasks, search), ListCompare);
    assert forall i, j :: 0 <= i < j < |r| ==> !KeyLt(ListKey(r[j]), ListKey(r[i])) by {
      forall i, j | 0 <= i < j < |r| ensures !KeyLt(ListKey(r[j]), ListKey(r[i])) {
        ListCompareAgreesWithKey(r[i], r[j]);
      }
    }
    r
  }
}
