/**
 * The comment panel of one task: it finds the task, lists a newest-first copy of its
 * comments, posts non-blank comments and deletes a listed one.
 */
module CommentSection {
  import opened Types
  import opened Sorting
  import opened TaskOps
  import Store

  /** The characters `trim` strips, restricted to ASCII: space, tab, line feed, vertical tab, form feed, carriage return. */
  predicate IsWhitespace(c: char) {
    c == ' ' || c == '\t' || c == '\n' || c == '\U{000B}' || c == '\U{000C}' || c == '\r'
  }

  /** `s` without its leading whitespace. */
  function TrimStart(s: string): (r: string)
    ensures |r| <= |s| && r == s[|s| - |r|..]
    ensures r != [] ==> !IsWhitespace(r[0])
    ensures forall i :: 0 <= i < |s| - |r| ==> IsWhitespace(s[i])
  {
    if s != [] && IsWhitespace(s[0]) then TrimStart(s[1..]) else s
  }

  /** `s` without its trailing whitespace. */
  function TrimEnd(s: string): (r: string)
    ensures |r| <= |s| && r == s[..|r|]
    ensures r != [] ==> !IsWhitespace(r[|r| - 1])
    ensures forall i :: |r| <= i < |s| ==> IsWhitespace(s[i])
  {
    if s != [] && IsWhitespace(s[|s| - 1]) then TrimEnd(s[..|s| - 1]) else s
  }

  /** `trim`: both ends stripped. */
  function Trim(s: string): string {
    TrimEnd(TrimStart(s))
  }

  /** The trimmed text is empty exactly when every character is whitespace. */
  lemma TrimEmptyIffBlank(s: string)
    ensures Trim(s) == [] <==> forall i :: 0 <= i < |s| ==> IsWhitespace(s[i])
  {
  }

  /** The position of the first task carrying `id`, or the length when none does. */
  function FirstIndex(tasks: seq<Task>, id: string): (k: nat)
    ensures k <= |tasks|
    ensures forall j :: 0 <= j < k ==> tasks[j].id != id
    ensures k < |tasks| ==> tasks[k].id == id
  {
    if tasks == [] || tasks[0].id == id then 0 else 1 + FirstIndex(tasks[1..], id)
  }

  /** `tasks.find`: the first task carrying `id`, if any. */
  function FindTask(tasks: seq<Task>, id: string): (r: Option<Task>)
    ensures r.None? <==> id !in TaskIds(tasks)
    ensures r.Some? ==> r.value.id == id && r.value == tasks[FirstIndex(tasks, id)]
  {
    var k := FirstIndex(tasks, id);
    if k < |tasks| then
      assert tasks[k] in tasks;
      Some(tasks[k])
    else
      assert forall x :: x in tasks ==> x.id != id;
      None
  }

  /** Newest first: a later `createdAt` sorts earlier. */
  function NewestFirst(a: Comment, b: Comment): int {
    b.createdAt - a.createdAt
  }

  lemma NewestFirstIsTotalPreorder()
    ensures IsTotalPreorder(NewestFirst)
  {
  }

  /** What the panel shows. */
  datatype Panel = TaskNotFound | Shown(task: Task, comments: seq<Comment>)

  /**
   * The panel for `taskId`: "Task not found" when no task carries it; otherwise the first
   * such task and a copy of its comments, the same comments, newest first.
   */
  function Render(tasks: seq<Task>, taskId: string): (p: Panel)
    ensures p.TaskNotFound? <==> taskId !in TaskIds(tasks)
    ensures p.Shown? ==> FindTask(tasks, taskId) == Some(p.task)
    ensures p.Shown? ==> p.task == tasks[FirstIndex(tasks, taskId)]
    ensures p.Shown? ==> multiset(p.comments) == multiset(p.task.comments)
    ensures p.Shown? ==> forall i, j :: 0 <= i < j < |p.comments| ==>
                           p.comments[i].createdAt >= p.comments[j].createdAt
  {
    match FindTask(tasks, taskId)
    case None => TaskNotFound
    case Some(t) =>
      NewestFirstIsTotalPreorder();
      var shown := SortBy(t.comments, NewestFirst);
      assert forall i, j :: 0 <= i < j < |shown| ==> NewestFirst(shown[i], shown[j]) <= 0;
      Shown(t, shown)
  }

  /** Removing comments keeps the ids of the tasks, so the first task with `taskId` stays at the same place. */
  lemma DeleteCommentKeepsFirstIndex(tasks: seq<Task>, taskId: string, commentId: string)
    ensures FirstIndex(DeleteCommentFrom(tasks, taskId, commentId), taskId) == FirstIndex(tasks, taskId)
  {
  }

  /** After a listed comment is deleted, the panel no longer lists any comment with its id. */
  lemma DeletedCommentNotShown(tasks: seq<Task>, taskId: string, commentId: string)
    requires taskId in TaskIds(tasks)
    ensures var p := Render(DeleteCommentFrom(tasks, taskId, commentId), taskId);
      p.Shown? && forall i :: 0 <= i < |p.comments| ==> p.comments[i].id != commentId
  {
    var after := DeleteCommentFrom(tasks, taskId, commentId);
    DeleteCommentKeepsFirstIndex(tasks, taskId, commentId);
    var k := FirstIndex(tasks, taskId);
    var p := Render(after, taskId);
    assert p.task == after[k];
    var shown := RemoveComment(tasks[k].comments, commentId);
    assert p.task.comments == shown;
    forall i | 0 <= i < |p.comments| ensures p.comments[i].id != commentId {
      assert p.comments[i] in multiset(shown);
      var m :| 0 <= m < |shown| && shown[m] == p.comments[i];
    }
  }

  /** One open panel: its task id, the draft comment and the author name. */
  class CommentSection {
    const store: Store.TaskStore
    const taskId: string
    var comment: string
    var username: string

    /** An empty draft and the author name "User". */
    constructor (store: Store.TaskStore, taskId: string)
      ensures this.store == store && this.taskId == taskId
      ensures comment == "" && username == "User"
    {
      this.store := store;
      this.taskId := taskId;
      comment := "";
      username := "User";
    }

    /**
     * `handleSubmit`: a draft that is not all whitespace is posted untrimmed under the
     * current author and then cleared; a blank draft changes nothing. For an unknown task the
     * panel shows "Task not found" and has no form, so nothing changes either. `commentId`
     * and `now` stand for the clock `addComment` reads.
     */
    method HandleSubmit(commentId: string, now: int)
      modifies this, store, store.storage
      ensures taskId !in TaskIds(old(store.tasks)) ==>
        unchanged(this) && unchanged(store) && unchanged(store.storage)
      ensures (forall i :: 0 <= i < |old(comment)| ==> IsWhitespace(old(comment)[i])) ==>
        unchanged(this) && unchanged(store) && unchanged(store.storage)
      ensures taskId in TaskIds(old(store.tasks)) && !(forall i :: 0 <= i < |old(comment)| ==> IsWhitespace(old(comment)[i])) ==>
        && comment == ""
        && store.tasks == AddCommentTo(old(store.tasks), taskId, commentId, old(comment), username, now)
        && store.storage.tasks == Some(store.tasks)
      ensures username == old(username)
      ensures store.tags == old(store.tags) && store.theme == old(store.theme) && store.currentView == old(store.currentView)
      ensures store.storage.tags == old(store.storage.tags) && store.storage.theme == old(store.storage.theme)
      ensures old(store.Synced()) ==> store.Synced()
      ensures old(Consistent(store.tasks, store.tags)) && !HasComment(old(store.tasks), taskId, commentId)
              ==> Consistent(store.tasks, store.tags)
    {
      if FindTask(store.tasks, taskId).None? {
        return;
      }
      TrimEmptyIffBlank(comment);
      if Trim(comment) != [] {
        store.AddComment(taskId, comment, username, commentId, now);
        comment := "";
      }
    }

    /**
     * The delete button of a listed comment: remove that comment from this panel's task. An
     * unknown task lists no comments and offers no button, so nothing changes.
     */
    method DeleteListedComment(c: Comment)
      modifies store, store.storage
      ensures taskId !in TaskIds(old(store.tasks)) ==> unchanged(store) && unchanged(store.storage)
      ensures store.tasks == DeleteCommentFrom(old(store.tasks), taskId, c.id)
      ensures taskId in TaskIds(old(store.tasks)) ==> store.storage.tasks == Some(store.tasks)
      ensures store.tags == old(store.tags) && store.theme == old(store.theme) && store.currentView == old(store.currentView)
      ensures store.storage.tags == old(store.storage.tags) && store.storage.theme == old(store.storage.theme)
      ensures old(store.Synced()) ==> store.Synced()
      ensures old(Consistent(store.tasks, store.tags)) ==> Consistent(store.tasks, store.tags)
    {
      if FindTask(store.tasks, taskId).None? {
        UnknownTaskHasNoComment(store.tasks, taskId, c.id);
        DeleteCommentUnknown(store.tasks, taskId, c.id);
        return;
      }
      store.DeleteComment(taskId, c.id);
    }
  }
}
