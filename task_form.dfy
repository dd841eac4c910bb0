/**
 * The create/edit form: its validated values, its defaults, the tag selection it keeps
 * as state, and the store call a submit dispatches.
 */
module TaskForm {
  import opened Types
  import opened Sequences
  import opened TaskOps
  import Store

  /** The validated form values; `description` may be absent, `dueDate` None is null. */
  datatype FormValues = FormValues(
    title: string,
    description: Option<string>,
    dueDate: Option<int>,
    priority: Priority,
    status: Status)

  /** The schema: the title is required; priority and status are enum members by their types. */
  predicate ValidFormValues(v: FormValues) {
    |v.title| >= 1
  }

  /** The optional initial data: each present field overrides the form's default. */
  datatype InitialData = InitialData(
    title: Option<string>,
    description: Option<string>,
    dueDate: Option<Option<int>>,
    priority: Option<Priority>,
    status: Option<Status>,
    tags: Option<seq<Tag>>)

  /** The built-in defaults, each overridden by the initial data when it gives that field. */
  function DefaultValues(init: InitialData): (v: FormValues)
    ensures init.title.None? ==> v.title == ""
    ensures init.description.None? ==> v.description == Some("")
    ensures init.dueDate.None? ==> v.dueDate == None
    ensures init.priority.None? ==> v.priority == Medium
    ensures init.status.None? ==> v.status == Todo
    ensures init.title.Some? ==> v.title == init.title.value
    ensures init.description.Some? ==> v.description == init.description
    ensures init.dueDate.Some? ==> v.dueDate == init.dueDate.value
    ensures init.priority.Some? ==> v.priority == init.priority.value
    ensures init.status.Some? ==> v.status == init.status.value
  {
    FormValues(init.title.GetOr(""), Some(init.description.GetOr("")), init.dueDate.GetOr(None),
               init.priority.GetOr(Medium), init.status.GetOr(Todo))
  }

  /** The initial data an edit passes: every field of a task. */
  function EditData(t: Task): InitialData {
    InitialData(Some(t.title), Some(t.description), Some(t.dueDate), Some(t.priority), Some(t.status), Some(t.tags))
  }

  /** Editing a task prefills the form with exactly that task's values. */
  lemma EditPrefillsTask(t: Task)
    ensures DefaultValues(EditData(t)) == FormValues(t.title, Some(t.description), t.dueDate, t.priority, t.status)
  {
  }

  /**
   * `toggleTag`: a selected tag id is deselected (every selected tag with that id goes, the
   * rest keep their order); an unselected one is appended.
   */
  function Toggled(selected: seq<Tag>, tag: Tag): (r: seq<Tag>)
    ensures tag.id in TagIds(selected) ==>
      && IsSubseq(r, selected)
      && (forall i :: 0 <= i < |r| ==> r[i].id != tag.id)
      && (forall x :: x in selected && x.id != tag.id ==> x in r)
    ensures tag.id !in TagIds(selected) ==> r == selected + [tag]
  {
    if tag.id in TagIds(selected) then RemoveTag(selected, tag.id) else selected + [tag]
  }

  /** Deselecting keeps every occurrence of each other selected tag and none with the tag's id. */
  lemma ToggleDeselectCount(selected: seq<Tag>, tag: Tag, x: Tag)
    requires tag.id in TagIds(selected)
    ensures multiset(Toggled(selected, tag))[x] == if x.id != tag.id then multiset(selected)[x] else 0
  {
    RemoveTagCount(selected, tag.id, x);
  }

  /** Dropping an id that only the appended tag carries gives back the list before the append. */
  lemma {:induction false} RemoveAppended(s: seq<Tag>, tag: Tag)
    requires forall k :: 0 <= k < |s| ==> s[k].id != tag.id
    ensures RemoveTag(s + [tag], tag.id) == s
  {
    if s == [] {
      assert [tag][1..] == [];
    } else {
      var t := s + [tag];
      assert t[0] == s[0] && t[1..] == s[1..] + [tag];
      RemoveAppended(s[1..], tag);
      assert RemoveTag(t, tag.id) == [s[0]] + RemoveTag(t[1..], tag.id);
      assert s == [s[0]] + s[1..];
    }
  }

  /** Toggling an unselected tag twice restores the selection. */
  lemma ToggleTwiceRestores(selected: seq<Tag>, tag: Tag)
    requires tag.id !in TagIds(selected)
    ensures Toggled(Toggled(selected, tag), tag) == selected
  {
    assert tag in selected + [tag];
    forall k | 0 <= k < |selected| ensures selected[k].id != tag.id {
      assert selected[k] in selected;
    }
    RemoveAppended(selected, tag);
  }

  /** Toggling keeps a selection made from the tag list within it. */
  lemma ToggleKeepsSelectionFrom(selected: seq<Tag>, tag: Tag, tags: seq<Tag>)
    requires TagsFrom(selected, tags) && tag in tags
    ensures TagsFrom(Toggled(selected, tag), tags)
  {
    var r := Toggled(selected, tag);
    if tag.id in TagIds(selected) {
      forall j | 0 <= j < |r| ensures r[j] in tags {
        var k :| 0 <= k < |selected| && selected[k] == r[j];
      }
    }
  }

  /** The store action a submit invokes. */
  datatype StoreCall = AddTaskCall(fields: TaskFields) | UpdateTaskCall(id: string, patch: TaskPatch)

  /**
   * `onSubmit`: with a non-empty task id, update that task with the values, the due date
   * (null when unset) and the selection; otherwise add a task, a missing description as "".
   */
  function SubmitCall(data: FormValues, selected: seq<Tag>, taskId: Option<string>): (c: StoreCall)
    ensures (taskId.Some? && taskId.value != "") <==> c.UpdateTaskCall?
    ensures c.UpdateTaskCall? ==>
      && c.id == taskId.value
      && c.patch.title == Some(data.title) && c.patch.description == data.description
      && c.patch.dueDate == Some(data.dueDate) && c.patch.tags == Some(selected)
      && c.patch.priority == Some(data.priority) && c.patch.status == Some(data.status)
      && c.patch.id == None && c.patch.createdAt == None && c.patch.comments == None
    ensures c.AddTaskCall? ==>
      c.fields == TaskFields(data.title, data.description.GetOr(""), data.dueDate, data.priority, data.status, selected)
  {
    if taskId.Some? && taskId.value != "" then
      UpdateTaskCall(taskId.value, TaskPatch(None, Some(data.title), data.description, Some(data.dueDate),
                                             Some(data.priority), Some(data.status), Some(selected), None, None))
    else
      AddTaskCall(TaskFields(data.title, data.description.GetOr(""), data.dueDate, data.priority, data.status, selected))
  }

  /**
   * A submit whose selection comes from the tag list keeps the store consistent: an edit's
   * patch leaves ids and comments alone, and a new task, given a fresh id, only embeds known tags.
   */
  lemma SubmitKeepsConsistent(tasks: seq<Task>, tags: seq<Tag>, data: FormValues, selected: seq<Tag>,
                              taskId: Option<string>, newId: string, now: int)
    requires Consistent(tasks, tags) && TagsFrom(selected, tags) && newId !in TaskIds(tasks)
    ensures var c := SubmitCall(data, selected, taskId);
      if c.UpdateTaskCall? then Consistent(UpdateTasks(tasks, c.id, c.patch), tags)
      else Consistent(tasks + [NewTask(newId, c.fields, now)], tags)
  {
    match SubmitCall(data, selected, taskId)
    case UpdateTaskCall(id, p) => UpdateTaskKeepsConsistent(tasks, tags, id, p);
    case AddTaskCall(f) => AddTaskKeepsConsistent(tasks, tags, newId, f, now);
  }

  /** One open form: the store it submits to, the task it edits (if any) and the selected tags. */
  class TaskForm {
    const store: Store.TaskStore
    const taskId: Option<string>
    const defaults: FormValues
    var selectedTags: seq<Tag>

    /** Open the form: the selection starts as the initial data's tags, or empty. */
    constructor (store: Store.TaskStore, init: InitialData, taskId: Option<string>)
      ensures this.store == store && this.taskId == taskId
      ensures defaults == DefaultValues(init)
      ensures selectedTags == init.tags.GetOr([])
    {
      this.store := store;
      this.taskId := taskId;
      defaults := DefaultValues(init);
      selectedTags := init.tags.GetOr([]);
    }

    /** `toggleTag`, stored back into the selection state. */
    method ToggleTag(tag: Tag)
      modifies this
      ensures selectedTags == Toggled(old(selectedTags), tag)
    {
      selectedTags := Toggled(selectedTags, tag);
    }

    /**
     * A submit: values that fail the schema reach no store action; valid ones dispatch the
     * call SubmitCall names. `newId` and `now` stand for the clock `addTask` reads.
     */
    method Submit(data: FormValues, newId: string, now: int) returns (submitted: bool)
      modifies store, store.storage
      ensures submitted <==> ValidFormValues(data)
      ensures !submitted ==> store.tasks == old(store.tasks) && unchanged(store.storage)
      ensures submitted && SubmitCall(data, selectedTags, taskId).UpdateTaskCall? ==>
        store.tasks == UpdateTasks(old(store.tasks), SubmitCall(data, selectedTags, taskId).id,
                                   SubmitCall(data, selectedTags, taskId).patch)
      ensures submitted && SubmitCall(data, selectedTags, taskId).AddTaskCall? ==>
        store.tasks == old(store.tasks) + [NewTask(newId, SubmitCall(data, selectedTags, taskId).fields, now)]
      ensures store.tags == old(store.tags) && store.theme == old(store.theme) && store.currentView == old(store.currentView)
      ensures submitted ==> store.storage.tasks == Some(store.tasks)
      ensures store.storage.tags == old(store.storage.tags) && store.storage.theme == old(store.storage.theme)
      ensures old(store.Synced()) ==> store.Synced()
      ensures old(Consistent(store.tasks, store.tags)) && TagsFrom(selectedTags, store.tags)
              && newId !in TaskIds(old(store.tasks))
              ==> Consistent(store.tasks, store.tags)
    {
      if !ValidFormValues(data) {
        return false;
      }
      var call := SubmitCall(data, selectedTags, taskId);
      if Consistent(store.tasks, store.tags) && TagsFrom(selectedTags, store.tags) && newId !in TaskIds(store.tasks) {
        SubmitKeepsConsistent(store.tasks, store.tags, data, selectedTags, taskId, newId, now);
      }
      if call.UpdateTaskCall? {
        store.UpdateTask(call.id, call.patch);
      } else {
        store.AddTask(call.fields, newId, now);
      }
      return true;
    }
  }
}
