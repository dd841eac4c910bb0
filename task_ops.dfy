/**
 * The new collections the task store computes in each action, as pure functions of the
 * old ones, together with the invariants they keep: unique ids, embedded tag copies that
 * agree with the tag list, and comments that point back at their owning task.
 */
module TaskOps {
  import opened Types
  import opened Sequences

  // ----- Invariants -----

  function TaskIds(tasks: seq<Task>): set<string> {
    set t | t in tasks :: t.id
  }

  function TagIds(tags: seq<Tag>): set<string> {
    set g | g in tags :: g.id
  }

  predicate UniqueTaskIds(tasks: seq<Task>) {
    forall i, j :: 0 <= i < j < |tasks| ==> tasks[i].id != tasks[j].id
  }

  predicate UniqueTagIds(tags: seq<Tag>) {
    forall i, j :: 0 <= i < j < |tags| ==> tags[i].id != tags[j].id
  }

  /** Every tag a task embeds is an exact copy of a tag in the tag list. */
  predicate InSync(tasks: seq<Task>, tags: seq<Tag>) {
    forall i, j :: 0 <= i < |tasks| && 0 <= j < |tasks[i].tags| ==> tasks[i].tags[j] in tags
  }

  /** Every comment names the task that holds it. */
  predicate CommentsOwned(tasks: seq<Task>) {
    forall i, j :: 0 <= i < |tasks| && 0 <= j < |tasks[i].comments| ==>
      tasks[i].comments[j].taskId == tasks[i].id
  }

  /** Every tag of a selection is an exact copy of a tag in the tag list. */
  predicate TagsFrom(selection: seq<Tag>, tags: seq<Tag>) {
    forall j :: 0 <= j < |selection| ==> selection[j] in tags
  }

  /** No two comments of a list share an id. */
  predicate DistinctCommentIds(comments: seq<Comment>) {
    forall j, k :: 0 <= j < k < |comments| ==> comments[j].id != comments[k].id
  }

  /** Within every task, comment ids are unique. */
  predicate UniqueCommentIds(tasks: seq<Task>) {
    forall i :: 0 <= i < |tasks| ==> DistinctCommentIds(tasks[i].comments)
  }

  /** Some task carrying `taskId` holds a comment with id `commentId`. */
  predicate HasComment(tasks: seq<Task>, taskId: string, commentId: string) {
    exists i, j :: 0 <= i < |tasks| && tasks[i].id == taskId && 0 <= j < |tasks[i].comments|
                   && tasks[i].comments[j].id == commentId
  }

  /** The data invariants the application relies on; the store keeps them only under the conditions its lemmas name. */
  predicate Consistent(tasks: seq<Task>, tags: seq<Tag>) {
    UniqueTaskIds(tasks) && UniqueTagIds(tags) && InSync(tasks, tags) && CommentsOwned(tasks)
    && UniqueCommentIds(tasks)
  }

  /** Two task lists with the same ids position by position. */
  predicate SameIds(a: seq<Task>, b: seq<Task>) {
    |a| == |b| && forall i :: 0 <= i < |a| ==> a[i].id == b[i].id
  }

  lemma {:induction false} SameIdsKeepUnique(a: seq<Task>, b: seq<Task>)
    requires SameIds(a, b)
    ensures UniqueTaskIds(a) <==> UniqueTaskIds(b)
    ensures TaskIds(a) == TaskIds(b)
  {
    forall x | x in TaskIds(a) ensures x in TaskIds(b) {
      var t :| t in a && t.id == x;
      var i :| 0 <= i < |a| && a[i] == t;
      assert b[i] in b;
    }
    forall x | x in TaskIds(b) ensures x in TaskIds(a) {
      var t :| t in b && t.id == x;
      var i :| 0 <= i < |b| && b[i] == t;
      assert a[i] in a;
    }
  }

  /** Two task lists whose comment lists agree position by position agree on comment-id uniqueness. */
  lemma SameCommentsKeepUnique(a: seq<Task>, b: seq<Task>)
    requires |a| == |b| && forall i :: 0 <= i < |a| ==> a[i].comments == b[i].comments
    ensures UniqueCommentIds(a) <==> UniqueCommentIds(b)
  {
  }

  // ----- addTask -----

  /** The record `addTask` builds: the given fields, a fresh id and timestamp, no comments. */
  function NewTask(id: string, fields: TaskFields, createdAt: int): Task {
    Task(id, fields.title, fields.description, fields.dueDate, fields.priority, fields.status,
         fields.tags, createdAt, [])
  }

  /**
   * Appending a task keeps ids unique when its id is fresh, keeps comment ownership when it
   * has no comments, and keeps embedded tags in sync when its tags come from the tag list.
   */
  lemma {:induction false} AddTaskKeepsInvariants(tasks: seq<Task>, tags: seq<Tag>, t: Task)
    ensures UniqueTaskIds(tasks) && t.id !in TaskIds(tasks) ==> UniqueTaskIds(tasks + [t])
    ensures CommentsOwned(tasks) && t.comments == [] ==> CommentsOwned(tasks + [t])
    ensures InSync(tasks, tags) && TagsFrom(t.tags, tags) ==> InSync(tasks + [t], tags)
    ensures UniqueCommentIds(tasks) && t.comments == [] ==> UniqueCommentIds(tasks + [t])
    ensures TaskIds(tasks + [t]) == TaskIds(tasks) + {t.id}
  {
    var r := tasks + [t];
    if UniqueTaskIds(tasks) && t.id !in TaskIds(tasks) {
      forall i, j | 0 <= i < j < |r| ensures r[i].id != r[j].id {
        if j == |tasks| {
          assert tasks[i] in tasks;
        }
      }
    }
    assert forall i :: 0 <= i < |tasks| ==> r[i] == tasks[i];
  }

  // ----- updateTask -----

  /** `{ ...task, ...patch }`: each field present in the patch replaces the task's own. */
  function MergeTask(t: Task, p: TaskPatch): Task {
    Task(p.id.GetOr(t.id), p.title.GetOr(t.title), p.description.GetOr(t.description),
         p.dueDate.GetOr(t.dueDate), p.priority.GetOr(t.priority), p.status.GetOr(t.status),
         p.tags.GetOr(t.tags), p.createdAt.GetOr(t.createdAt), p.comments.GetOr(t.comments))
  }

  /** The `map` of `updateTask`: every task carrying `id` is merged with the patch. */
  function UpdateTasks(tasks: seq<Task>, id: string, p: TaskPatch): (r: seq<Task>)
    ensures |r| == |tasks|
    ensures forall i :: 0 <= i < |tasks| ==>
      r[i] == if tasks[i].id == id then MergeTask(tasks[i], p) else tasks[i]
  {
    if tasks == [] then []
    else [if tasks[0].id == id then MergeTask(tasks[0], p) else tasks[0]]
         + UpdateTasks(tasks[1..], id, p)
  }

  /** An id no task carries leaves the list as it was. */
  lemma {:induction false} UpdateTasksUnknownId(tasks: seq<Task>, id: string, p: TaskPatch)
    requires id !in TaskIds(tasks)
    ensures UpdateTasks(tasks, id, p) == tasks
  {
    var r := UpdateTasks(tasks, id, p);
    forall i | 0 <= i < |tasks| ensures r[i] == tasks[i] {
      assert tasks[i] in tasks;
    }
  }

  /**
   * A patch that does not set `id` keeps every id, hence their uniqueness; one that sets
   * neither `id` nor `comments` keeps comment ownership; one whose `tags` (if any) come
   * from the tag list keeps the embedded copies in sync.
   */
  lemma {:induction false} UpdateTasksKeepsInvariants(tasks: seq<Task>, tags: seq<Tag>, id: string, p: TaskPatch)
    requires p.id == None
    ensures SameIds(tasks, UpdateTasks(tasks, id, p))
    ensures UniqueTaskIds(tasks) ==> UniqueTaskIds(UpdateTasks(tasks, id, p))
    ensures CommentsOwned(tasks) && p.comments == None ==> CommentsOwned(UpdateTasks(tasks, id, p))
    ensures UniqueCommentIds(tasks) && p.comments == None ==> UniqueCommentIds(UpdateTasks(tasks, id, p))
    ensures InSync(tasks, tags) && (p.tags.Some? ==> TagsFrom(p.tags.value, tags))
      ==> InSync(UpdateTasks(tasks, id, p), tags)
  {
    var r := UpdateTasks(tasks, id, p);
    SameIdsKeepUnique(tasks, r);
    if p.comments == None {
      SameCommentsKeepUnique(tasks, r);
    }
    if CommentsOwned(tasks) && p.comments == None {
      UpdateTasksKeepsOwnership(tasks, id, p);
    }
    if InSync(tasks, tags) && (p.tags.Some? ==> TagsFrom(p.tags.value, tags)) {
      UpdateTasksKeepsSync(tasks, tags, id, p);
    }
  }

  lemma UpdateTasksKeepsOwnership(tasks: seq<Task>, id: string, p: TaskPatch)
    requires p.id == None && p.comments == None && CommentsOwned(tasks)
    ensures CommentsOwned(UpdateTasks(tasks, id, p))
  {
    var r := UpdateTasks(tasks, id, p);
    forall i, j | 0 <= i < |r| && 0 <= j < |r[i].comments| ensures r[i].comments[j].taskId == r[i].id {
      assert r[i].comments == tasks[i].comments && r[i].id == tasks[i].id;
    }
  }

  lemma UpdateTasksKeepsSync(tasks: seq<Task>, tags: seq<Tag>, id: string, p: TaskPatch)
    requires InSync(tasks, tags) && (p.tags.Some? ==> TagsFrom(p.tags.value, tags))
    ensures InSync(UpdateTasks(tasks, id, p), tags)
  {
    var r := UpdateTasks(tasks, id, p);
    forall i, j | 0 <= i < |r| && 0 <= j < |r[i].tags| ensures r[i].tags[j] in tags {
      if tasks[i].id != id || p.tags.None? {
        assert r[i].tags == tasks[i].tags;
      }
    }
  }

  // ----- deleteTask -----

  /** The `filter` of `deleteTask`: drop every task carrying `id`. */
  function RemoveTask(tasks: seq<Task>, id: string): (r: seq<Task>)
    ensures IsSubseq(r, tasks)
    ensures forall i :: 0 <= i < |r| ==> r[i] in tasks && r[i].id != id
    ensures forall x :: x in tasks && x.id != id ==> x in r
    ensures id !in TaskIds(tasks) ==> r == tasks
  {
    if tasks == [] then []
    else if tasks[0].id == id then
      var rest := RemoveTask(tasks[1..], id);
      assert tasks == [tasks[0]] + tasks[1..];
      IsSubseqSkip(tasks[0], rest, tasks[1..]);
      rest
    else
      var rest := RemoveTask(tasks[1..], id);
      assert tasks == [tasks[0]] + tasks[1..];
      IsSubseqCons(tasks[0], rest, tasks[1..]);
      assert id !in TaskIds(tasks) ==> id !in TaskIds(tasks[1..]);
      [tasks[0]] + rest
  }

  /** The delete filter keeps every occurrence of a task without the id and none with it. */
  lemma {:induction false} RemoveTaskCount(tasks: seq<Task>, id: string, t: Task)
    ensures multiset(RemoveTask(tasks, id))[t] == if t.id != id then multiset(tasks)[t] else 0
  {
    if tasks != [] {
      RemoveTaskCount(tasks[1..], id, t);
      assert tasks == [tasks[0]] + tasks[1..];
      assert multiset(tasks) == multiset{tasks[0]} + multiset(tasks[1..]);
    }
  }

  /** The comments of every task carrying `id`, in list order. */
  function CommentsOf(tasks: seq<Task>, id: string): seq<Comment> {
    if tasks == [] then []
    else (if tasks[0].id == id then tasks[0].comments else []) + CommentsOf(tasks[1..], id)
  }

  /** Deleting a task deletes its comments: none is reachable through its id afterwards. */
  lemma {:induction false} RemoveTaskDropsComments(tasks: seq<Task>, id: string)
    ensures CommentsOf(RemoveTask(tasks, id), id) == []
  {
    NoTaskNoComments(RemoveTask(tasks, id), id);
  }

  lemma {:induction false} NoTaskNoComments(tasks: seq<Task>, id: string)
    requires id !in TaskIds(tasks)
    ensures CommentsOf(tasks, id) == []
  {
    if tasks != [] {
      assert tasks[0] in tasks;
      assert TaskIds(tasks[1..]) <= TaskIds(tasks) by {
        forall x | x in TaskIds(tasks[1..]) ensures x in TaskIds(tasks) {
          var t :| t in tasks[1..] && t.id == x;
          assert t in tasks;
        }
      }
      NoTaskNoComments(tasks[1..], id);
    }
  }

  /** Removing tasks keeps ids unique, comments owned and embedded tags in sync. */
  lemma {:induction false} RemoveTaskKeepsInvariants(tasks: seq<Task>, tags: seq<Tag>, id: string)
    ensures UniqueTaskIds(tasks) ==> UniqueTaskIds(RemoveTask(tasks, id))
    ensures CommentsOwned(tasks) ==> CommentsOwned(RemoveTask(tasks, id))
    ensures InSync(tasks, tags) ==> InSync(RemoveTask(tasks, id), tags)
    ensures UniqueCommentIds(tasks) ==> UniqueCommentIds(RemoveTask(tasks, id))
  {
    var r := RemoveTask(tasks, id);
    if UniqueCommentIds(tasks) {
      forall i | 0 <= i < |r| ensures DistinctCommentIds(r[i].comments) {
        var k :| 0 <= k < |tasks| && tasks[k] == r[i];
      }
    }
    if UniqueTaskIds(tasks) {
      RemoveTaskKeepsUnique(tasks, id);
    }
    if CommentsOwned(tasks) {
      forall i, j | 0 <= i < |r| && 0 <= j < |r[i].comments|
        ensures r[i].comments[j].taskId == r[i].id
      {
        var k :| 0 <= k < |tasks| && tasks[k] == r[i];
      }
    }
    if InSync(tasks, tags) {
      forall i, j | 0 <= i < |r| && 0 <= j < |r[i].tags| ensures r[i].tags[j] in tags {
        var k :| 0 <= k < |tasks| && tasks[k] == r[i];
      }
    }
  }

  lemma {:induction false} RemoveTaskKeepsUnique(tasks: seq<Task>, id: string)
    requires UniqueTaskIds(tasks)
    ensures UniqueTaskIds(RemoveTask(tasks, id))
  {
    if tasks != [] {
      var rest := RemoveTask(tasks[1..], id);
      RemoveTaskKeepsUnique(tasks[1..], id);
      if tasks[0].id != id {
        forall j | 0 <= j < |rest| ensures rest[j].id != tasks[0].id {
          HeadIdNotInTail(tasks, rest[j]);
        }
        UniqueCons(tasks[0], rest);
      }
    }
  }

  lemma HeadIdNotInTail(tasks: seq<Task>, x: Task)
    requires UniqueTaskIds(tasks) && tasks != [] && x in tasks[1..]
    ensures x.id != tasks[0].id
  {
    var k :| 0 <= k < |tasks[1..]| && tasks[1..][k] == x;
    assert tasks[k + 1] == x;
  }

  lemma UniqueCons(x: Task, s: seq<Task>)
    requires UniqueTaskIds(s) && forall j :: 0 <= j < |s| ==> s[j].id != x.id
    ensures UniqueTaskIds([x] + s)
  {
    var r := [x] + s;
    forall i, j | 0 <= i < j < |r| ensures r[i].id != r[j].id {
      assert r[j] == s[j - 1];
      if i > 0 {
        assert r[i] == s[i - 1];
      }
    }
  }

  // ----- Tags: addTag, updateTag, deleteTag -----

  /** Appending a tag keeps tag ids unique when its id is fresh, and never breaks the sync. */
  lemma {:induction false} AddTagKeepsInvariants(tasks: seq<Task>, tags: seq<Tag>, g: Tag)
    ensures UniqueTagIds(tags) && g.id !in TagIds(tags) ==> UniqueTagIds(tags + [g])
    ensures InSync(tasks, tags) ==> InSync(tasks, tags + [g])
  {
    var r := tags + [g];
    if UniqueTagIds(tags) && g.id !in TagIds(tags) {
      forall i, j | 0 <= i < j < |r| ensures r[i].id != r[j].id {
        if j == |tags| {
          assert tags[i] in tags;
        }
      }
    }
  }

  /** `{ ...tag, ...patch }` on a tag. */
  function MergeTag(g: Tag, p: TagPatch): Tag {
    Tag(p.id.GetOr(g.id), p.name.GetOr(g.name), p.color.GetOr(g.color))
  }

  /** The tag `map` of `updateTag`, used on the tag list and on each task's embedded copies. */
  function UpdateTags(tags: seq<Tag>, id: string, p: TagPatch): (r: seq<Tag>)
    ensures |r| == |tags|
    ensures forall i :: 0 <= i < |tags| ==>
      r[i] == if tags[i].id == id then MergeTag(tags[i], p) else tags[i]
  {
    if tags == [] then []
    else [if tags[0].id == id then MergeTag(tags[0], p) else tags[0]]
         + UpdateTags(tags[1..], id, p)
  }

  /** The tag `filter` of `deleteTag`, used on the tag list and on each task's embedded copies. */
  function RemoveTag(tags: seq<Tag>, id: string): (r: seq<Tag>)
    ensures IsSubseq(r, tags)
    ensures forall i :: 0 <= i < |r| ==> r[i] in tags && r[i].id != id
    ensures forall x :: x in tags && x.id != id ==> x in r
    ensures id !in TagIds(tags) ==> r == tags
  {
    if tags == [] then []
    else if tags[0].id == id then
      var rest := RemoveTag(tags[1..], id);
      assert tags == [tags[0]] + tags[1..];
      IsSubseqSkip(tags[0], rest, tags[1..]);
      rest
    else
      var rest := RemoveTag(tags[1..], id);
      assert tags == [tags[0]] + tags[1..];
      IsSubseqCons(tags[0], rest, tags[1..]);
      assert id !in TagIds(tags) ==> id !in TagIds(tags[1..]);
      [tags[0]] + rest
  }

  /** The tag filter keeps every occurrence of a tag without the id and none with it. */
  lemma {:induction false} RemoveTagCount(tags: seq<Tag>, id: string, g: Tag)
    ensures multiset(RemoveTag(tags, id))[g] == if g.id != id then multiset(tags)[g] else 0
  {
    if tags != [] {
      RemoveTagCount(tags[1..], id, g);
      assert tags == [tags[0]] + tags[1..];
      assert multiset(tags) == multiset{tags[0]} + multiset(tags[1..]);
    }
  }

  /** The task `map` of `updateTag`: rewrite every embedded copy of tag `id` in every task. */
  function CascadeTagUpdate(tasks: seq<Task>, id: string, p: TagPatch): (r: seq<Task>)
    ensures |r| == |tasks|
    ensures forall i :: 0 <= i < |tasks| ==>
      r[i] == tasks[i].(tags := UpdateTags(tasks[i].tags, id, p))
  {
    if tasks == [] then []
    else [tasks[0].(tags := UpdateTags(tasks[0].tags, id, p))] + CascadeTagUpdate(tasks[1..], id, p)
  }

  /** The task `map` of `deleteTag`: strip tag `id` out of every task. */
  function CascadeTagDelete(tasks: seq<Task>, id: string): (r: seq<Task>)
    ensures |r| == |tasks|
    ensures forall i :: 0 <= i < |tasks| ==>
      r[i] == tasks[i].(tags := RemoveTag(tasks[i].tags, id))
  {
    if tasks == [] then []
    else [tasks[0].(tags := RemoveTag(tasks[0].tags, id))] + CascadeTagDelete(tasks[1..], id)
  }

  /**
   * updateTag's cascade: every embedded copy of tag `id` becomes the merged tag, a field the
   * patch leaves out keeps its value, and a task that embeds no copy of `id` is unchanged.
   */
  lemma {:induction false} CascadeTagUpdateEffect(tasks: seq<Task>, id: string, p: TagPatch, i: int, j: int)
    requires 0 <= i < |tasks|
    ensures var r := CascadeTagUpdate(tasks, id, p);
      && (id !in TagIds(tasks[i].tags) ==> r[i] == tasks[i])
      && (0 <= j < |tasks[i].tags| && tasks[i].tags[j].id == id ==>
            r[i].tags[j] == Tag(p.id.GetOr(id), p.name.GetOr(tasks[i].tags[j].name),
                                p.color.GetOr(tasks[i].tags[j].color)))
  {
    if id !in TagIds(tasks[i].tags) {
      assert RemoveTag(tasks[i].tags, id) == tasks[i].tags;
      forall k | 0 <= k < |tasks[i].tags| ensures UpdateTags(tasks[i].tags, id, p)[k] == tasks[i].tags[k] {
        assert tasks[i].tags[k] in tasks[i].tags;
      }
      assert UpdateTags(tasks[i].tags, id, p) == tasks[i].tags;
    }
  }

  /**
   * updateTag keeps the embedded copies in sync with the tag list: whatever copy of tag `id`
   * a task held, the merged copy is what the tag list now holds.
   */
  lemma {:induction false} CascadeTagUpdateKeepsSync(tasks: seq<Task>, tags: seq<Tag>, id: string, p: TagPatch)
    requires InSync(tasks, tags)
    ensures InSync(CascadeTagUpdate(tasks, id, p), UpdateTags(tags, id, p))
  {
    var r := CascadeTagUpdate(tasks, id, p);
    var ts := UpdateTags(tags, id, p);
    forall i, j | 0 <= i < |r| && 0 <= j < |r[i].tags| ensures r[i].tags[j] in ts {
      var k :| 0 <= k < |tags| && tags[k] == tasks[i].tags[j];
      assert ts[k] == r[i].tags[j];
    }
  }

  /**
   * deleteTag's cascade: afterwards no tag with `id` is left in the tag list or in any task,
   * every task keeps its other tags in their order, and embedded copies stay in sync.
   */
  lemma {:induction false} CascadeTagDeleteEffect(tasks: seq<Task>, tags: seq<Tag>, id: string)
    ensures var r := CascadeTagDelete(tasks, id);
      forall i, j :: 0 <= i < |r| && 0 <= j < |r[i].tags| ==> r[i].tags[j].id != id
    ensures var r := CascadeTagDelete(tasks, id);
      forall i, g :: 0 <= i < |tasks| && g in tasks[i].tags && g.id != id ==> g in r[i].tags
    ensures forall i :: 0 <= i < |tasks| ==>
      IsSubseq(CascadeTagDelete(tasks, id)[i].tags, tasks[i].tags)
    ensures InSync(tasks, tags) ==> InSync(CascadeTagDelete(tasks, id), RemoveTag(tags, id))
  {
    var r := CascadeTagDelete(tasks, id);
    var ts := RemoveTag(tags, id);
    if InSync(tasks, tags) {
      forall i, j | 0 <= i < |r| && 0 <= j < |r[i].tags| ensures r[i].tags[j] in ts {
        var g := r[i].tags[j];
        assert g in tasks[i].tags;
        var k :| 0 <= k < |tasks[i].tags| && tasks[i].tags[k] == g;
      }
    }
  }

  /**
   * An id no listed tag carries is a silent no-op for both tag actions: the tag list and,
   * when every embedded tag is a listed one, every task are left as they were.
   */
  lemma {:induction false} TagUnknownNoOp(tasks: seq<Task>, tags: seq<Tag>, id: string, p: TagPatch)
    requires InSync(tasks, tags) && id !in TagIds(tags)
    ensures UpdateTags(tags, id, p) == tags && RemoveTag(tags, id) == tags
    ensures CascadeTagUpdate(tasks, id, p) == tasks && CascadeTagDelete(tasks, id) == tasks
  {
    forall g | g in tags ensures g.id != id {
    }
    forall i | 0 <= i < |tasks|
      ensures UpdateTags(tasks[i].tags, id, p) == tasks[i].tags && RemoveTag(tasks[i].tags, id) == tasks[i].tags
    {
      forall j | 0 <= j < |tasks[i].tags| ensures tasks[i].tags[j].id != id {
        assert tasks[i].tags[j] in tags;
      }
      assert id !in TagIds(tasks[i].tags);
    }
  }

  /** updateTag's cascade keeps every task id, hence uniqueness, comment ownership and comment ids. */
  lemma {:induction false} CascadeTagUpdateKeepsTasks(tasks: seq<Task>, id: string, p: TagPatch)
    ensures SameIds(tasks, CascadeTagUpdate(tasks, id, p))
    ensures UniqueTaskIds(tasks) ==> UniqueTaskIds(CascadeTagUpdate(tasks, id, p))
    ensures CommentsOwned(tasks) ==> CommentsOwned(CascadeTagUpdate(tasks, id, p))
    ensures UniqueCommentIds(tasks) ==> UniqueCommentIds(CascadeTagUpdate(tasks, id, p))
  {
    SameIdsKeepUnique(tasks, CascadeTagUpdate(tasks, id, p));
    SameCommentsKeepUnique(tasks, CascadeTagUpdate(tasks, id, p));
  }

  /** deleteTag's cascade keeps every task id, hence uniqueness, comment ownership and comment ids. */
  lemma {:induction false} CascadeTagDeleteKeepsTasks(tasks: seq<Task>, id: string)
    ensures SameIds(tasks, CascadeTagDelete(tasks, id))
    ensures UniqueTaskIds(tasks) ==> UniqueTaskIds(CascadeTagDelete(tasks, id))
    ensures CommentsOwned(tasks) ==> CommentsOwned(CascadeTagDelete(tasks, id))
    ensures UniqueCommentIds(tasks) ==> UniqueCommentIds(CascadeTagDelete(tasks, id))
  {
    SameIdsKeepUnique(tasks, CascadeTagDelete(tasks, id));
    SameCommentsKeepUnique(tasks, CascadeTagDelete(tasks, id));
  }

  /** A tag update that keeps ids keeps tag ids unique; removing tags does too. */
  lemma {:induction false} TagListKeepsUnique(tags: seq<Tag>, id: string, p: TagPatch)
    requires UniqueTagIds(tags)
    ensures p.id == None ==> UniqueTagIds(UpdateTags(tags, id, p))
    ensures UniqueTagIds(RemoveTag(tags, id))
  {
    RemoveTagKeepsUnique(tags, id);
  }

  lemma {:induction false} RemoveTagKeepsUnique(tags: seq<Tag>, id: string)
    requires UniqueTagIds(tags)
    ensures UniqueTagIds(RemoveTag(tags, id))
  {
    if tags != [] {
      var rest := RemoveTag(tags[1..], id);
      RemoveTagKeepsUnique(tags[1..], id);
      if tags[0].id != id {
        forall j | 0 <= j < |rest| ensures rest[j].id != tags[0].id {
          HeadTagIdNotInTail(tags, rest[j]);
        }
        UniqueTagCons(tags[0], rest);
      }
    }
  }

  lemma HeadTagIdNotInTail(tags: seq<Tag>, x: Tag)
    requires UniqueTagIds(tags) && tags != [] && x in tags[1..]
    ensures x.id != tags[0].id
  {
    var k :| 0 <= k < |tags[1..]| && tags[1..][k] == x;
    assert tags[k + 1] == x;
  }

  lemma UniqueTagCons(x: Tag, s: seq<Tag>)
    requires UniqueTagIds(s) && forall j :: 0 <= j < |s| ==> s[j].id != x.id
    ensures UniqueTagIds([x] + s)
  {
    var r := [x] + s;
    forall i, j | 0 <= i < j < |r| ensures r[i].id != r[j].id {
      assert r[j] == s[j - 1];
      if i > 0 {
        assert r[i] == s[i - 1];
      }
    }
  }

  // ----- Comments: addComment, deleteComment -----

  /** The `map` of `addComment`: every task carrying `taskId` gets the new comment at the end. */
  function AddCommentTo(tasks: seq<Task>, taskId: string, commentId: string, content: string,
                        author: string, now: int): (r: seq<Task>)
    ensures |r| == |tasks|
    ensures forall i :: 0 <= i < |tasks| ==>
      r[i] == if tasks[i].id == taskId
              then tasks[i].(comments := tasks[i].comments + [Comment(commentId, taskId, content, author, now)])
              else tasks[i]
  {
    if tasks == [] then []
    else [if tasks[0].id == taskId
          then tasks[0].(comments := tasks[0].comments + [Comment(commentId, taskId, content, author, now)])
          else tasks[0]]
         + AddCommentTo(tasks[1..], taskId, commentId, content, author, now)
  }

  /** The comment `filter` of `deleteComment`. */
  function RemoveComment(comments: seq<Comment>, commentId: string): (r: seq<Comment>)
    ensures IsSubseq(r, comments)
    ensures forall i :: 0 <= i < |r| ==> r[i] in comments && r[i].id != commentId
    ensures forall c :: c in comments && c.id != commentId ==> c in r
    ensures (forall j :: 0 <= j < |comments| ==> comments[j].id != commentId) ==> r == comments
  {
    if comments == [] then []
    else if comments[0].id == commentId then
      var rest := RemoveComment(comments[1..], commentId);
      assert comments == [comments[0]] + comments[1..];
      IsSubseqSkip(comments[0], rest, comments[1..]);
      rest
    else
      var rest := RemoveComment(comments[1..], commentId);
      assert comments == [comments[0]] + comments[1..];
      IsSubseqCons(comments[0], rest, comments[1..]);
      assert (forall j :: 0 <= j < |comments| ==> comments[j].id != commentId) ==>
        forall j :: 0 <= j < |comments[1..]| ==> comments[1..][j].id != commentId;
      [comments[0]] + rest
  }

  /** The comment filter keeps every occurrence of a comment without the id and none with it. */
  lemma {:induction false} RemoveCommentCount(comments: seq<Comment>, commentId: string, c: Comment)
    ensures multiset(RemoveComment(comments, commentId))[c]
            == if c.id != commentId then multiset(comments)[c] else 0
  {
    if comments != [] {
      RemoveCommentCount(comments[1..], commentId, c);
      assert comments == [comments[0]] + comments[1..];
      assert multiset(comments) == multiset{comments[0]} + multiset(comments[1..]);
    }
  }

  /** Filtering comments with distinct ids keeps their ids distinct. */
  lemma {:induction false} RemoveCommentKeepsDistinct(comments: seq<Comment>, commentId: string)
    requires DistinctCommentIds(comments)
    ensures DistinctCommentIds(RemoveComment(comments, commentId))
  {
    if comments != [] {
      var rest := RemoveComment(comments[1..], commentId);
      RemoveCommentKeepsDistinct(comments[1..], commentId);
      if comments[0].id != commentId {
        forall j | 0 <= j < |rest| ensures rest[j].id != comments[0].id {
          HeadCommentIdNotInTail(comments, rest[j]);
        }
        DistinctCommentCons(comments[0], rest);
      }
    }
  }

  lemma HeadCommentIdNotInTail(comments: seq<Comment>, x: Comment)
    requires DistinctCommentIds(comments) && comments != [] && x in comments[1..]
    ensures x.id != comments[0].id
  {
    var k :| 0 <= k < |comments[1..]| && comments[1..][k] == x;
    assert comments[k + 1] == x;
  }

  lemma DistinctCommentCons(x: Comment, s: seq<Comment>)
    requires DistinctCommentIds(s) && forall j :: 0 <= j < |s| ==> s[j].id != x.id
    ensures DistinctCommentIds([x] + s)
  {
    var r := [x] + s;
    forall i, j | 0 <= i < j < |r| ensures r[i].id != r[j].id {
      assert r[j] == s[j - 1];
      if i > 0 {
        assert r[i] == s[i - 1];
      }
    }
  }

  /** The `map` of `deleteComment`: drop comment `commentId` from every task carrying `taskId`. */
  function DeleteCommentFrom(tasks: seq<Task>, taskId: string, commentId: string): (r: seq<Task>)
    ensures |r| == |tasks|
    ensures forall i :: 0 <= i < |tasks| ==>
      r[i] == if tasks[i].id == taskId
              then tasks[i].(comments := RemoveComment(tasks[i].comments, commentId))
              else tasks[i]
  {
    if tasks == [] then []
    else [if tasks[0].id == taskId
          then tasks[0].(comments := RemoveComment(tasks[0].comments, commentId))
          else tasks[0]]
         + DeleteCommentFrom(tasks[1..], taskId, commentId)
  }

  /**
   * deleteComment changes nothing when no task carrying `taskId` holds comment `commentId`,
   * in particular when no task carries `taskId`.
   */
  lemma {:induction false} DeleteCommentUnknown(tasks: seq<Task>, taskId: string, commentId: string)
    requires !HasComment(tasks, taskId, commentId)
    ensures DeleteCommentFrom(tasks, taskId, commentId) == tasks
  {
    var r := DeleteCommentFrom(tasks, taskId, commentId);
    forall i | 0 <= i < |tasks| ensures r[i] == tasks[i] {
      if tasks[i].id == taskId {
        assert forall j :: 0 <= j < |tasks[i].comments| ==> tasks[i].comments[j].id != commentId;
      }
    }
  }

  /** A task id no task carries holds no comment. */
  lemma UnknownTaskHasNoComment(tasks: seq<Task>, taskId: string, commentId: string)
    requires taskId !in TaskIds(tasks)
    ensures !HasComment(tasks, taskId, commentId)
  {
    forall i | 0 <= i < |tasks| ensures tasks[i].id != taskId {
      assert tasks[i] in tasks;
    }
  }

  /** addComment on an unknown task id changes nothing. */
  lemma {:induction false} AddCommentUnknownTask(tasks: seq<Task>, taskId: string, commentId: string, content: string,
                              author: string, now: int)
    requires taskId !in TaskIds(tasks)
    ensures AddCommentTo(tasks, taskId, commentId, content, author, now) == tasks
  {
    var r := AddCommentTo(tasks, taskId, commentId, content, author, now);
    forall i | 0 <= i < |tasks| ensures r[i] == tasks[i] {
      assert tasks[i] in tasks;
    }
  }

  /** Adding a comment to the task it names keeps every task id, comment ownership and the tag sync. */
  lemma AddCommentKeepsInvariants(tasks: seq<Task>, tags: seq<Tag>, taskId: string, commentId: string,
                                  content: string, author: string, now: int)
    ensures SameIds(tasks, AddCommentTo(tasks, taskId, commentId, content, author, now))
    ensures CommentsOwned(tasks) ==> CommentsOwned(AddCommentTo(tasks, taskId, commentId, content, author, now))
    ensures InSync(tasks, tags) ==> InSync(AddCommentTo(tasks, taskId, commentId, content, author, now), tags)
    ensures UniqueCommentIds(tasks) && !HasComment(tasks, taskId, commentId)
      ==> UniqueCommentIds(AddCommentTo(tasks, taskId, commentId, content, author, now))
  {
    var ra := AddCommentTo(tasks, taskId, commentId, content, author, now);
    if UniqueCommentIds(tasks) && !HasComment(tasks, taskId, commentId) {
      forall i | 0 <= i < |ra| ensures DistinctCommentIds(ra[i].comments) {
        if tasks[i].id == taskId {
          var cs := ra[i].comments;
          forall j, k | 0 <= j < k < |cs| ensures cs[j].id != cs[k].id {
            if k < |tasks[i].comments| {
              assert cs[j] == tasks[i].comments[j] && cs[k] == tasks[i].comments[k];
            } else {
              assert cs[j] == tasks[i].comments[j];
            }
          }
        }
      }
    }
    if CommentsOwned(tasks) {
      forall i, j | 0 <= i < |ra| && 0 <= j < |ra[i].comments|
        ensures ra[i].comments[j].taskId == ra[i].id
      {
        if tasks[i].id == taskId && j < |tasks[i].comments| {
          assert ra[i].comments[j] == tasks[i].comments[j];
        }
      }
    }
    if InSync(tasks, tags) {
      forall i, j | 0 <= i < |ra| && 0 <= j < |ra[i].tags| ensures ra[i].tags[j] in tags {
        assert ra[i].tags == tasks[i].tags;
      }
    }
  }

  /** Deleting a comment keeps every task id, comment ownership and the tag sync. */
  lemma DeleteCommentKeepsInvariants(tasks: seq<Task>, tags: seq<Tag>, taskId: string, commentId: string)
    ensures SameIds(tasks, DeleteCommentFrom(tasks, taskId, commentId))
    ensures CommentsOwned(tasks) ==> CommentsOwned(DeleteCommentFrom(tasks, taskId, commentId))
    ensures InSync(tasks, tags) ==> InSync(DeleteCommentFrom(tasks, taskId, commentId), tags)
    ensures UniqueCommentIds(tasks) ==> UniqueCommentIds(DeleteCommentFrom(tasks, taskId, commentId))
  {
    var rd := DeleteCommentFrom(tasks, taskId, commentId);
    if UniqueCommentIds(tasks) {
      forall i | 0 <= i < |rd| ensures DistinctCommentIds(rd[i].comments) {
        if tasks[i].id == taskId {
          RemoveCommentKeepsDistinct(tasks[i].comments, commentId);
        }
      }
    }
    if CommentsOwned(tasks) {
      forall i, j | 0 <= i < |rd| && 0 <= j < |rd[i].comments|
        ensures rd[i].comments[j].taskId == rd[i].id
      {
        if tasks[i].id == taskId {
          var c := rd[i].comments[j];
          assert c in tasks[i].comments;
          var k :| 0 <= k < |tasks[i].comments| && tasks[i].comments[k] == c;
        }
      }
    }
    if InSync(tasks, tags) {
      forall i, j | 0 <= i < |rd| && 0 <= j < |rd[i].tags| ensures rd[i].tags[j] in tags {
        assert rd[i].tags == tasks[i].tags;
      }
    }
  }

  // ----- Each action keeps the invariants -----

  lemma {:induction false} DeleteCommentKeepsConsistent(tasks: seq<Task>, tags: seq<Tag>, taskId: string, commentId: string)
    requires Consistent(tasks, tags)
    ensures Consistent(DeleteCommentFrom(tasks, taskId, commentId), tags)
  {
    DeleteCommentKeepsInvariants(tasks, tags, taskId, commentId);
    SameIdsKeepUnique(tasks, DeleteCommentFrom(tasks, taskId, commentId));
  }

  lemma {:induction false} AddCommentKeepsConsistent(tasks: seq<Task>, tags: seq<Tag>, taskId: string,
                                                     commentId: string, content: string, author: string, now: int)
    requires Consistent(tasks, tags) && !HasComment(tasks, taskId, commentId)
    ensures Consistent(AddCommentTo(tasks, taskId, commentId, content, author, now), tags)
  {
    AddCommentKeepsInvariants(tasks, tags, taskId, commentId, content, author, now);
    SameIdsKeepUnique(tasks, AddCommentTo(tasks, taskId, commentId, content, author, now));
  }

  lemma {:induction false} DeleteTagKeepsConsistent(tasks: seq<Task>, tags: seq<Tag>, id: string)
    requires Consistent(tasks, tags)
    ensures Consistent(CascadeTagDelete(tasks, id), RemoveTag(tags, id))
  {
    CascadeTagDeleteEffect(tasks, tags, id);
    CascadeTagDeleteKeepsTasks(tasks, id);
    RemoveTagKeepsUnique(tags, id);
  }

  lemma {:induction false} UpdateTagKeepsConsistent(tasks: seq<Task>, tags: seq<Tag>, id: string, p: TagPatch)
    requires Consistent(tasks, tags) && p.id == None
    ensures Consistent(CascadeTagUpdate(tasks, id, p), UpdateTags(tags, id, p))
  {
    CascadeTagUpdateKeepsSync(tasks, tags, id, p);
    TagListKeepsUnique(tags, id, p);
    CascadeTagUpdateKeepsTasks(tasks, id, p);
  }

  lemma {:induction false} AddTagKeepsConsistent(tasks: seq<Task>, tags: seq<Tag>, g: Tag)
    requires Consistent(tasks, tags) && g.id !in TagIds(tags)
    ensures Consistent(tasks, tags + [g])
  {
    AddTagKeepsInvariants(tasks, tags, g);
  }

  lemma {:induction false} DeleteTaskKeepsConsistent(tasks: seq<Task>, tags: seq<Tag>, id: string)
    requires Consistent(tasks, tags)
    ensures Consistent(RemoveTask(tasks, id), tags)
  {
    RemoveTaskKeepsInvariants(tasks, tags, id);
  }

  lemma {:induction false} UpdateTaskKeepsConsistent(tasks: seq<Task>, tags: seq<Tag>, id: string, p: TaskPatch)
    requires Consistent(tasks, tags)
    requires p.id == None && p.comments == None && (p.tags.Some? ==> TagsFrom(p.tags.value, tags))
    ensures Consistent(UpdateTasks(tasks, id, p), tags)
  {
    UpdateTasksKeepsInvariants(tasks, tags, id, p);
  }

  lemma {:induction false} AddTaskKeepsConsistent(tasks: seq<Task>, tags: seq<Tag>, id: string, f: TaskFields, now: int)
    requires Consistent(tasks, tags) && id !in TaskIds(tasks) && TagsFrom(f.tags, tags)
    ensures Consistent(tasks + [NewTask(id, f, now)], tags)
  {
    AddTaskKeepsInvariants(tasks, tags, NewTask(id, f, now));
  }
}
