/**
 * The task store: the one object that holds tasks, tags, theme and current view. Every
 * action that changes tasks or tags replaces the list with the one TaskOps computes and
 * writes it to storage before returning, even when the id is unknown; `setTheme` writes the
 * theme, `setCurrentView` writes nothing, and `initializeStore` writes only the seeded tags.
 * An unknown id leaves the in-memory lists unchanged (for tags, when the embedded copies are
 * in sync).
 */
module Store {
  import opened Types
  import opened TaskOps
  import opened Persistence
  import Notification

  /** The starter tags `initializeStore` seeds into an empty tag list. */
  const DefaultTags: seq<Tag> := [
    Tag("1", "Work", "#8b5cf6"),
    Tag("2", "Personal", "#ec4899"),
    Tag("3", "Urgent", "#ef4444"),
    Tag("4", "Ideas", "#14b8a6")
  ]

  class TaskStore {
    var tasks: seq<Task>
    var tags: seq<Tag>
    var theme: AppTheme
    var currentView: View
    const storage: Storage

    /** What storage would load equals what is in memory. */
    ghost predicate Synced()
      reads this, storage
    {
      storage.LoadTasks() == tasks && storage.LoadTags() == tags && storage.LoadTheme() == theme
    }

    /** The store as created, before `initializeStore`; `storage` is the browser's storage. */
    constructor (storage: Storage)
      ensures this.storage == storage
      ensures tasks == [] && tags == [] && theme == Light && currentView == Board
      ensures Consistent(tasks, tags)
    {
      this.storage := storage;
      tasks, tags, theme, currentView := [], [], Light, Board;
    }

    /** `addTask`: append the new task; `id` and `now` stand for `Date.now()`. */
    method AddTask(fields: TaskFields, id: string, now: int)
      modifies this, storage
      ensures tasks == old(tasks) + [NewTask(id, fields, now)]
      ensures tags == old(tags) && theme == old(theme) && currentView == old(currentView)
      ensures storage.tasks == Some(tasks)
      ensures storage.tags == old(storage.tags) && storage.theme == old(storage.theme)
      ensures old(Synced()) ==> Synced()
      ensures old(Consistent(tasks, tags)) && id !in TaskIds(old(tasks)) && TagsFrom(fields.tags, tags)
        ==> Consistent(tasks, tags)
    {
      if Consistent(tasks, tags) && id !in TaskIds(tasks) && TagsFrom(fields.tags, tags) {
        AddTaskKeepsConsistent(tasks, tags, id, fields, now);
      }
      tasks := tasks + [NewTask(id, fields, now)];
      storage.SaveTasks(tasks);
    }

    /** `updateTask`: merge the patch into every task carrying `id`. */
    method UpdateTask(id: string, patch: TaskPatch)
      modifies this, storage
      ensures tasks == UpdateTasks(old(tasks), id, patch)
      ensures tags == old(tags) && theme == old(theme) && currentView == old(currentView)
      ensures storage.tasks == Some(tasks)
      ensures storage.tags == old(storage.tags) && storage.theme == old(storage.theme)
      ensures old(Synced()) ==> Synced()
      ensures id !in TaskIds(old(tasks)) ==> tasks == old(tasks)
      ensures old(Consistent(tasks, tags)) && patch.id == None && patch.comments == None
              && (patch.tags.Some? ==> TagsFrom(patch.tags.value, tags))
              ==> Consistent(tasks, tags)
    {
      if id !in TaskIds(tasks) {
        UpdateTasksUnknownId(tasks, id, patch);
      }
      if Consistent(tasks, tags) && patch.id == None && patch.comments == None
         && (patch.tags.Some? ==> TagsFrom(patch.tags.value, tags)) {
        UpdateTaskKeepsConsistent(tasks, tags, id, patch);
      }
      var newTasks := UpdateTasks(tasks, id, patch);
      tasks := newTasks;
      storage.SaveTasks(newTasks);
    }

    /** `deleteTask`: drop every task carrying `id`, and with it its comments. */
    method DeleteTask(id: string)
      modifies this, storage
      ensures tasks == RemoveTask(old(tasks), id)
      ensures tags == old(tags) && theme == old(theme) && currentView == old(currentView)
      ensures storage.tasks == Some(tasks)
      ensures storage.tags == old(storage.tags) && storage.theme == old(storage.theme)
      ensures old(Synced()) ==> Synced()
      ensures CommentsOf(tasks, id) == []
      ensures old(Consistent(tasks, tags)) ==> Consistent(tasks, tags)
    {
      if Consistent(tasks, tags) {
        DeleteTaskKeepsConsistent(tasks, tags, id);
      }
      RemoveTaskDropsComments(tasks, id);
      tasks := RemoveTask(tasks, id);
      storage.SaveTasks(tasks);
    }

    /** `addTag`: append a tag with the given name and colour and a fresh `id`. */
    method AddTag(name: string, color: string, id: string)
      modifies this, storage
      ensures tags == old(tags) + [Tag(id, name, color)]
      ensures tasks == old(tasks) && theme == old(theme) && currentView == old(currentView)
      ensures storage.tags == Some(tags)
      ensures storage.tasks == old(storage.tasks) && storage.theme == old(storage.theme)
      ensures old(Synced()) ==> Synced()
      ensures old(Consistent(tasks, tags)) && id !in TagIds(old(tags)) ==> Consistent(tasks, tags)
    {
      if Consistent(tasks, tags) && id !in TagIds(tags) {
        AddTagKeepsConsistent(tasks, tags, Tag(id, name, color));
      }
      tags := tags + [Tag(id, name, color)];
      storage.SaveTags(tags);
    }

    /** `updateTag`: merge the patch into tag `id` and into every embedded copy of it. */
    method UpdateTag(id: string, patch: TagPatch)
      modifies this, storage
      ensures tags == UpdateTags(old(tags), id, patch)
      ensures tasks == CascadeTagUpdate(old(tasks), id, patch)
      ensures theme == old(theme) && currentView == old(currentView)
      ensures storage.tags == Some(tags) && storage.tasks == Some(tasks)
      ensures storage.theme == old(storage.theme)
      ensures old(Synced()) ==> Synced()
      ensures old(InSync(tasks, tags)) && id !in TagIds(old(tags)) ==> tags == old(tags) && tasks == old(tasks)
      ensures old(Consistent(tasks, tags)) && patch.id == None ==> Consistent(tasks, tags)
    {
      var newTags, newTasks := UpdateTags(tags, id, patch), CascadeTagUpdate(tasks, id, patch);
      if InSync(tasks, tags) && id !in TagIds(tags) {
        TagUnknownNoOp(tasks, tags, id, patch);
      }
      if Consistent(tasks, tags) && patch.id == None {
        UpdateTagKeepsConsistent(tasks, tags, id, patch);
      }
      tags := newTags;
      storage.SaveTags(newTags);
      tasks := newTasks;
      storage.SaveTasks(newTasks);
    }

    /** `deleteTag`: drop tag `id` from the tag list and from every task. */
    method DeleteTag(id: string)
      modifies this, storage
      ensures tags == RemoveTag(old(tags), id)
      ensures tasks == CascadeTagDelete(old(tasks), id)
      ensures theme == old(theme) && currentView == old(currentView)
      ensures storage.tags == Some(tags) && storage.tasks == Some(tasks)
      ensures storage.theme == old(storage.theme)
      ensures old(Synced()) ==> Synced()
      ensures old(InSync(tasks, tags)) && id !in TagIds(old(tags)) ==> tags == old(tags) && tasks == old(tasks)
      ensures old(Consistent(tasks, tags)) ==> Consistent(tasks, tags)
    {
      var newTags, newTasks := RemoveTag(tags, id), CascadeTagDelete(tasks, id);
      if InSync(tasks, tags) && id !in TagIds(tags) {
        TagUnknownNoOp(tasks, tags, id, TagPatch(None, None, None));
      }
      if Consistent(tasks, tags) {
        DeleteTagKeepsConsistent(tasks, tags, id);
      }
      tags := newTags;
      storage.SaveTags(newTags);
      tasks := newTasks;
      storage.SaveTasks(newTasks);
    }

    /** `addComment`: every task carrying `taskId` gets the comment; `commentId` and `now` stand for the clock. */
    method AddComment(taskId: string, content: string, author: string, commentId: string, now: int)
      modifies this, storage
      ensures tasks == AddCommentTo(old(tasks), taskId, commentId, content, author, now)
      ensures tags == old(tags) && theme == old(theme) && currentView == old(currentView)
      ensures storage.tasks == Some(tasks)
      ensures storage.tags == old(storage.tags) && storage.theme == old(storage.theme)
      ensures old(Synced()) ==> Synced()
      ensures taskId !in TaskIds(old(tasks)) ==> tasks == old(tasks)
      ensures old(Consistent(tasks, tags)) && !HasComment(old(tasks), taskId, commentId) ==> Consistent(tasks, tags)
    {
      if taskId !in TaskIds(tasks) {
        AddCommentUnknownTask(tasks, taskId, commentId, content, author, now);
      }
      if Consistent(tasks, tags) && !HasComment(tasks, taskId, commentId) {
        AddCommentKeepsConsistent(tasks, tags, taskId, commentId, content, author, now);
      }
      var newTasks := AddCommentTo(tasks, taskId, commentId, content, author, now);
      tasks := newTasks;
      storage.SaveTasks(newTasks);
    }

    /** `deleteComment`: drop comment `commentId` from every task carrying `taskId`. */
    method DeleteComment(taskId: string, commentId: string)
      modifies this, storage
      ensures tasks == DeleteCommentFrom(old(tasks), taskId, commentId)
      ensures tags == old(tags) && theme == old(theme) && currentView == old(currentView)
      ensures storage.tasks == Some(tasks)
      ensures storage.tags == old(storage.tags) && storage.theme == old(storage.theme)
      ensures old(Synced()) ==> Synced()
      ensures taskId !in TaskIds(old(tasks)) ==> tasks == old(tasks)
      ensures !HasComment(old(tasks), taskId, commentId) ==> tasks == old(tasks)
      ensures old(Consistent(tasks, tags)) ==> Consistent(tasks, tags)
    {
      if taskId !in TaskIds(tasks) {
        UnknownTaskHasNoComment(tasks, taskId, commentId);
      }
      if !HasComment(tasks, taskId, commentId) {
        DeleteCommentUnknown(tasks, taskId, commentId);
      }
      if Consistent(tasks, tags) {
        DeleteCommentKeepsConsistent(tasks, tags, taskId, commentId);
      }
      var newTasks := DeleteCommentFrom(tasks, taskId, commentId);
      tasks := newTasks;
      storage.SaveTasks(newTasks);
    }

    /** `setTheme`: set and persist the theme. */
    method SetTheme(t: AppTheme)
      modifies this, storage
      ensures theme == t && storage.theme == Some(t)
      ensures tasks == old(tasks) && tags == old(tags) && currentView == old(currentView)
      ensures storage.tasks == old(storage.tasks) && storage.tags == old(storage.tags)
      ensures old(Synced()) ==> Synced()
    {
      theme := t;
      storage.SaveTheme(t);
    }

    /** `setCurrentView`: only the in-memory view changes; nothing is persisted. */
    method SetCurrentView(v: View)
      modifies this
      ensures currentView == v
      ensures tasks == old(tasks) && tags == old(tags) && theme == old(theme)
      ensures unchanged(storage)
      ensures old(Synced()) ==> Synced()
    {
      currentView := v;
    }

    /**
     * `initializeStore`: load all three collections from storage; when the loaded tag list
     * is empty, seed the four default tags and persist them.
     */
    method InitializeStore()
      modifies this, storage
      ensures tasks == old(storage.LoadTasks()) && theme == old(storage.LoadTheme())
      ensures tags == if old(storage.LoadTags()) == [] then DefaultTags else old(storage.LoadTags())
      ensures storage.tags == if old(storage.LoadTags()) == [] then Some(DefaultTags) else old(storage.tags)
      ensures storage.tasks == old(storage.tasks) && storage.theme == old(storage.theme)
      ensures currentView == old(currentView)
      ensures Synced()
      ensures Consistent(old(storage.LoadTasks()), old(storage.LoadTags())) ==> Consistent(tasks, tags)
    {
      tasks := storage.LoadTasks();
      tags := storage.LoadTags();
      theme := storage.LoadTheme();
      if |tags| == 0 {
        if Consistent(tasks, tags) {
          SeedingKeepsConsistent(tasks);
        }
        tags := DefaultTags;
        storage.SaveTags(DefaultTags);
      }
    }

    /** `checkNotifications`: the messages the notifier sends for the current tasks; no state changes. */
    method CheckNotifications(now: int, offset: int) returns (messages: seq<Notification.Message>)
      ensures messages == Notification.NotifyDueTasks(tasks, Notification.LocalDay(now, offset), offset)
    {
      messages := Notification.NotifyDueTasks(tasks, Notification.LocalDay(now, offset), offset);
    }
  }

  /** The seeded tags are four, with distinct ids '1' to '4'. */
  lemma DefaultTagsShape()
    ensures |DefaultTags| == 4 && UniqueTagIds(DefaultTags)
    ensures forall i :: 0 <= i < 4 ==> DefaultTags[i].id == ["1", "2", "3", "4"][i]
  {
  }

  /** Tasks consistent with an empty tag list embed no tags, so they stay consistent once the defaults are seeded. */
  lemma SeedingKeepsConsistent(tasks: seq<Task>)
    requires Consistent(tasks, [])
    ensures Consistent(tasks, DefaultTags)
  {
    DefaultTagsShape();
  }

  /**
   * Initialising twice never duplicates the default tags: the second call finds the seeded
   * list in storage and loads exactly it.
   */
  method InitializeTwice(store: TaskStore)
    modifies store, store.storage
    ensures store.tags == if old(store.storage.LoadTags()) == [] then DefaultTags
                          else old(store.storage.LoadTags())
    ensures old(store.storage.LoadTags()) == [] ==> |store.tags| == 4 && UniqueTagIds(store.tags)
    ensures store.Synced()
  {
    store.InitializeStore();
    store.InitializeStore();
    DefaultTagsShape();
  }
}
