# Flow Task Mastery Board — a Dafny model of its task store and views

Flow Task Mastery Board is a browser task manager. Tasks have a title, a description, an
optional due date, a priority (high, medium, low), a status (todo, in progress, completed),
embedded copies of tags, and a list of comments. One store object holds the tasks, the tags,
the colour theme and the current view. Every action that changes tasks or tags computes the
new list, stores it, and writes it to the browser's local storage; `setTheme` writes the theme,
`setCurrentView` writes nothing, and `initializeStore` writes only when it seeds the default
tags. The views read the store:
- the list and the board filter the tasks by a search string and sort them with fixed comparators;
- a notifier reports the unfinished tasks due today or tomorrow;
- a form creates or edits tasks and keeps a tag selection;
- a comment panel posts and deletes comments.

The model has one module per part of the program:

- `Types`: the records (`Task`, `Tag`, `Comment`) and enumerations. It also has the partial
  records that `updateTask` and `updateTag` merge (`TaskPatch`, `TagPatch`).
- `TaskOps`: the store's actions as pure functions on sequences, plus the data invariant
  `Consistent`:
  - task ids are unique and tag ids are unique;
  - every embedded tag is an exact copy of a listed tag;
  - every comment names its task;
  - within each task, comment ids are unique.

  It also has one lemma per action, giving the conditions under which that action keeps the
  invariant.
- `Persistence`: local storage as a `Storage` object with one optional value per key.
- `Store`: the store as a class `TaskStore` whose methods update its fields and storage. Each
  method's contract names the new state, what is left unchanged, and what storage now holds.
  It also states that memory and storage stay in sync, and that the invariant is kept.
- `Search`: the search filter shared by the list and the board.
- `Sorting`: sorting a copy with a comparator. `SortBy` is specified as a sorted permutation.
- `TaskOrder`: the shared ranks and tie-breaks, plus an independent reference order. The
  reference is a sort key per task, compared lexicographically.
- `TaskList`: the list comparator and the list view.
- `KanbanBoard`: the board comparator, the three columns, and dropping a card on a column.
- `Notification`: due-task selection, the today/tomorrow split, and the messages.
- `TaskForm`: form defaults, the schema, tag toggling, and the store call a submit makes.
- `CommentSection`: the blank-comment guard, the task lookup, the newest-first listing, and
  deleting a listed comment.

Clock readings (`Date.now()`, `new Date()`) become parameters: `id`, `now`, `commentId`.
Timestamps are integers in milliseconds. A date's calendar day is `LocalDay(t, offset)`, the
day number in a time zone `offset` milliseconds ahead of UTC.

Three facts about the program shape the model:
- Every id-taking store action writes its collection to storage, even when the id is unknown. The
  in-memory collection is then unchanged, but the write still happens.
- `updateTask`, `deleteTask`, `addComment` and `deleteComment` act on every task that carries
  the id, not only the first one.
- New ids come from the clock and are not unique by construction. Uniqueness is kept only
  under a fresh-id condition on the action that creates the id.

## Model

| member | source | states |
|---|---|---|
| Types.StatusPatch | src/components/tasks/KanbanBoard.tsx:68 | the patch a drop sends sets the status and no other field |
| Persistence.Storage.constructor | src/utils/localStorage.ts:2-4 | storage starts with the given value (or none) under each of its three keys |
| Persistence.Storage.SaveTasks | src/utils/localStorage.ts:11-13 | writing the tasks key stores the list, and loading it back returns exactly that list |
| Persistence.Storage.SaveTags | src/utils/localStorage.ts:20-22 | writing the tags key stores the list, and loading it back returns exactly that list |
| Persistence.Storage.SaveTheme | src/utils/localStorage.ts:28-30 | writing the theme key stores the theme, and loading it back returns it |
| TaskOps.AddTaskKeepsInvariants | src/store/taskStore.ts:37-50 | appending a task adds exactly its id to the id set; a fresh id keeps ids unique; no comments keeps ownership; tags drawn from the tag list keep the sync |
| TaskOps.UpdateTasks | src/store/taskStore.ts:52-60 | same length; each task carrying the id is merged with the patch (present fields replace, absent ones stay); every other task is unchanged |
| TaskOps.UpdateTasksUnknownId | src/store/taskStore.ts:54-56 | an id no task carries leaves the list unchanged |
| TaskOps.UpdateTasksKeepsInvariants | src/store/taskStore.ts:52-60 | a patch without `id` keeps every id in place (so uniqueness); without `comments` too, it keeps comment ownership; with tags from the tag list, it keeps the sync |
| TaskOps.UpdateTasksKeepsOwnership | src/store/taskStore.ts:54-56 | a patch that sets neither id nor comments leaves every comment naming its task |
| TaskOps.UpdateTasksKeepsSync | src/store/taskStore.ts:54-56 | a patch whose tags (if any) come from the tag list keeps every embedded tag a listed one |
| TaskOps.RemoveTask | src/store/taskStore.ts:62-68 | the result is an order-preserving subsequence; it holds no task with the id and every task without it; an unknown id changes nothing |
| TaskOps.RemoveTaskCount | src/store/taskStore.ts:64 | the delete keeps every occurrence of each task without the id, and none with it |
| TaskOps.RemoveTaskDropsComments | src/store/taskStore.ts:62-68 | after deleting a task, no comment is reachable through its id |
| TaskOps.NoTaskNoComments | src/store/taskStore.ts:62-68 | when no task carries an id, no comments belong to it |
| TaskOps.RemoveTaskKeepsInvariants | src/store/taskStore.ts:62-68 | deleting tasks keeps ids unique, comments owned and embedded tags in sync |
| TaskOps.RemoveTaskKeepsUnique | src/store/taskStore.ts:64 | filtering a list with unique ids keeps them unique |
| TaskOps.AddTagKeepsInvariants | src/store/taskStore.ts:70-81 | appending a tag with a fresh id keeps tag ids unique; appending never breaks the sync |
| TaskOps.UpdateTags | src/store/taskStore.ts:85-87 | same length; each tag carrying the id is merged with the patch; every other tag is unchanged |
| TaskOps.RemoveTag | src/store/taskStore.ts:105 | an order-preserving subsequence with no tag of the id and every tag without it; an unknown id changes nothing |
| TaskOps.RemoveTagCount | src/store/taskStore.ts:105 | the tag filter keeps every occurrence of each tag without the id, and none with it |
| TaskOps.CascadeTagUpdate | src/store/taskStore.ts:91-96 | same length; each task keeps every field except its tags, which go through the tag merge |
| TaskOps.CascadeTagDelete | src/store/taskStore.ts:109-112 | same length; each task keeps every field except its tags, from which the id is filtered |
| TaskOps.CascadeTagUpdateEffect | src/store/taskStore.ts:91-96 | a task embedding no copy of the tag is unchanged; each embedded copy becomes the merged tag, fields the patch omits keeping their old values |
| TaskOps.CascadeTagUpdateKeepsSync | src/store/taskStore.ts:83-101 | after the cascade, every embedded tag is a copy of a tag in the updated tag list |
| TaskOps.CascadeTagDeleteEffect | src/store/taskStore.ts:103-117 | no task keeps a tag with the id; each task keeps its other tags in order; embedded tags stay in sync with the filtered tag list |
| TaskOps.TagUnknownNoOp | src/store/taskStore.ts:83-117 | for an id no listed tag carries, updating or deleting leaves the tag list unchanged, and, when every embedded tag is a listed one, every task too |
| TaskOps.CascadeTagUpdateKeepsTasks | src/store/taskStore.ts:91-96 | the cascade keeps task ids in place (so uniqueness) and comment ownership |
| TaskOps.CascadeTagDeleteKeepsTasks | src/store/taskStore.ts:109-112 | the cascade keeps task ids in place (so uniqueness) and comment ownership |
| TaskOps.TagListKeepsUnique | src/store/taskStore.ts:83-117 | an update that does not set the id keeps tag ids unique; deleting does too |
| TaskOps.RemoveTagKeepsUnique | src/store/taskStore.ts:105 | filtering a tag list with unique ids keeps them unique |
| TaskOps.AddCommentTo | src/store/taskStore.ts:119-141 | same length; each task carrying the id gets the new comment (its id, the task id, content, author, time) appended; others are unchanged |
| TaskOps.RemoveComment | src/store/taskStore.ts:149 | an order-preserving subsequence with no comment of the id and every comment without it; when no comment has the id, the list is unchanged |
| TaskOps.RemoveCommentCount | src/store/taskStore.ts:149 | the comment filter keeps every occurrence of each comment without the id, and none with it |
| TaskOps.RemoveCommentKeepsDistinct | src/store/taskStore.ts:149 | filtering comments with distinct ids keeps their ids distinct |
| TaskOps.DeleteCommentFrom | src/store/taskStore.ts:143-158 | same length; each task carrying the id loses the comment; others are unchanged |
| TaskOps.DeleteCommentUnknown | src/store/taskStore.ts:143-158 | when no task carrying the task id holds the comment id (in particular, when no task carries the task id), deleting changes nothing |
| TaskOps.UnknownTaskHasNoComment | src/store/taskStore.ts:143-158 | a task id no task carries holds no comment |
| TaskOps.AddCommentUnknownTask | src/store/taskStore.ts:121-136 | adding a comment to an unknown task id leaves the list unchanged |
| TaskOps.AddCommentKeepsInvariants | src/store/taskStore.ts:119-141 | adding a comment keeps ids in place, comment ownership and the tag sync; a comment id that the task does not yet hold keeps comment ids unique |
| TaskOps.DeleteCommentKeepsInvariants | src/store/taskStore.ts:143-158 | deleting a comment keeps ids in place, comment ownership, the tag sync and unique comment ids |
| TaskOps.AddTaskKeepsConsistent | src/store/taskStore.ts:37-50 | a fresh id and tags from the tag list keep the whole invariant |
| TaskOps.UpdateTaskKeepsConsistent | src/store/taskStore.ts:52-60 | a patch that sets neither id nor comments, with listed tags, keeps the whole invariant |
| TaskOps.DeleteTaskKeepsConsistent | src/store/taskStore.ts:62-68 | deleting a task keeps the whole invariant |
| TaskOps.AddTagKeepsConsistent | src/store/taskStore.ts:70-81 | a fresh tag id keeps the whole invariant |
| TaskOps.UpdateTagKeepsConsistent | src/store/taskStore.ts:83-101 | updating a tag and its copies, without changing its id, keeps the whole invariant |
| TaskOps.DeleteTagKeepsConsistent | src/store/taskStore.ts:103-117 | deleting a tag and its copies keeps the whole invariant |
| TaskOps.AddCommentKeepsConsistent | src/store/taskStore.ts:119-141 | adding a comment whose id the task does not yet hold keeps the whole invariant |
| TaskOps.DeleteCommentKeepsConsistent | src/store/taskStore.ts:143-158 | deleting a comment keeps the whole invariant |
| Store.TaskStore.constructor | src/store/taskStore.ts:31-35 | the initial store has no tasks, no tags, the light theme and the board view, and is consistent |
| Store.TaskStore.AddTask | src/store/taskStore.ts:37-50 | the new task is appended last; the list is persisted; nothing else changes; memory and storage stay in sync; the invariant holds for a fresh id and listed tags |
| Store.TaskStore.UpdateTask | src/store/taskStore.ts:52-60 | tasks become the merged list and are persisted; an unknown id leaves them unchanged; nothing else changes; sync and invariant are kept |
| Store.TaskStore.DeleteTask | src/store/taskStore.ts:62-68 | tasks become the filtered list and are persisted; no comment of the deleted id remains; sync and invariant are kept |
| Store.TaskStore.AddTag | src/store/taskStore.ts:70-81 | the new tag is appended last; the tags are persisted; tasks are unchanged; the invariant holds for a fresh id |
| Store.TaskStore.UpdateTag | src/store/taskStore.ts:83-101 | tag list and every embedded copy are merged, and both are persisted; the theme is unchanged; an id no listed tag carries leaves tags and tasks unchanged when the embedded tags are in sync; sync and invariant are kept |
| Store.TaskStore.DeleteTag | src/store/taskStore.ts:103-117 | the tag leaves the tag list and every task, and both are persisted; an id no listed tag carries leaves tags and tasks unchanged when the embedded tags are in sync; sync and invariant are kept |
| Store.TaskStore.AddComment | src/store/taskStore.ts:119-141 | the comment is appended to each task carrying the id; an unknown id leaves the tasks unchanged; persisted; nothing else changes; the invariant is kept for a fresh comment id |
| Store.TaskStore.DeleteComment | src/store/taskStore.ts:143-158 | the comment leaves each task carrying the id; an unknown task id, or a comment id no such task holds, leaves the tasks unchanged; persisted; nothing else changes; invariant kept |
| Store.TaskStore.SetTheme | src/store/taskStore.ts:160-163 | the theme is set and persisted; nothing else changes |
| Store.TaskStore.SetCurrentView | src/store/taskStore.ts:171-173 | only the view changes; storage is untouched |
| Store.TaskStore.InitializeStore | src/store/taskStore.ts:175-200 | tasks, tags and theme are loaded (defaults [] and light); an empty tag list is replaced by the four default tags, which are persisted; memory and storage end in sync; consistent stored data stays consistent after seeding |
| Store.TaskStore.CheckNotifications | src/store/taskStore.ts:202-205 | the messages are the notifier's messages for the current tasks at the given time; no state changes |
| Store.DefaultTagsShape | src/store/taskStore.ts:190-195 | the default tags are four, with distinct ids "1" to "4" |
| Store.SeedingKeepsConsistent | src/store/taskStore.ts:189-198 | tasks consistent with an empty tag list stay consistent with the seeded default tags |
| Store.InitializeTwice | src/store/taskStore.ts:175-200 | a second initialisation leaves the same tags as one would: exactly the four defaults on empty storage, never duplicated |
| Search.Lower | src/components/tasks/TaskList.tsx:16-18 | lower-casing keeps the length and maps each character |
| Search.IncludesIffOccurs | src/components/tasks/TaskList.tsx:16-18 | `includes` holds exactly when the needle occurs at some position of the text |
| Search.FilterTasks | src/components/tasks/TaskList.tsx:15-19 | an order-preserving subsequence of the tasks whose title, description or a tag name contains the query, holding every such task |
| Search.FilterTasksCount | src/components/tasks/TaskList.tsx:15-19 | the search keeps every occurrence of each matching task, and none of any other |
| Search.EmptySearchKeepsAll | src/components/tasks/KanbanBoard.tsx:16-20 | an empty search keeps every task in its order |
| Sorting.InsertBy | src/components/tasks/TaskList.tsx:21 | inserting into a sorted list gives a sorted list with one more occurrence of the element |
| Sorting.SortBy | src/components/tasks/TaskList.tsx:21 | sorting a copy gives a permutation of it, ordered by the comparator |
| TaskOrder.KeyLtIsStrictTotal | src/components/tasks/TaskList.tsx:21-55 | the reference key order is irreflexive and transitive, and any two keys are equal or ordered |
| TaskList.ListCompareAgreesWithKey | src/components/tasks/TaskList.tsx:21-55 | the list comparator is negative, zero or positive exactly when the reference key (status, priority, dated first, due ascending or creation descending) is below, equal or above |
| TaskList.ListCompareAntisymmetric | src/components/tasks/TaskList.tsx:21-55 | swapping the two tasks flips the comparator's sign |
| TaskList.ListCompareIsTotalPreorder | src/components/tasks/TaskList.tsx:21-55 | the list comparator is a valid sort order |
| TaskList.ListView | src/components/tasks/TaskList.tsx:15-55 | the list shows a permutation of the searched tasks, with no task's key above a later task's key |
| KanbanBoard.BoardCompareAgreesWithKey | src/components/tasks/KanbanBoard.tsx:31-54 | the board comparator agrees in sign with the reference key without status |
| KanbanBoard.BoardCompareIsTotalPreorder | src/components/tasks/KanbanBoard.tsx:31-54 | the board comparator is a valid sort order |
| KanbanBoard.StatusFilter | src/components/tasks/KanbanBoard.tsx:29-30 | an order-preserving subsequence holding exactly the tasks of the status |
| KanbanBoard.StatusFilterCount | src/components/tasks/KanbanBoard.tsx:29-30 | the status filter keeps every occurrence of each task of the status, and none of any other |
| KanbanBoard.ColumnTasks | src/components/tasks/KanbanBoard.tsx:28-55 | a column is a permutation of the searched tasks of its status, sorted by board key |
| KanbanBoard.StatusFiltersPartition | src/components/tasks/KanbanBoard.tsx:22-30 | the three status filters together hold each task exactly as often as the list does |
| KanbanBoard.BoardShowsEachTaskOnce | src/components/tasks/KanbanBoard.tsx:16-55 | the three columns together show every searched task exactly once |
| KanbanBoard.HandleDrop | src/components/tasks/KanbanBoard.tsx:65-69 | each task carrying the dropped id takes the column's status and nothing else about any task changes; tags, theme, view and the other storage keys are unchanged; persisted; invariant kept |
| Notification.CheckDueTasks | src/utils/notification.ts:4-25 | an order-preserving subsequence holding exactly the unfinished tasks whose due day is today or tomorrow |
| Notification.CheckDueTasksCount | src/utils/notification.ts:4-25 | the due filter keeps every occurrence of each due task, and none of any other |
| Notification.DueOn | src/utils/notification.ts:49-68 | an order-preserving subsequence of tasks due on the given day |
| Notification.DueOnCount | src/utils/notification.ts:49-68 | the day filter keeps every occurrence of each task due that day, and none of any other |
| Notification.DayGroupsPartition | src/utils/notification.ts:49-68 | the today and tomorrow groups are disjoint and together hold exactly the due tasks |
| Notification.NatToStringRoundTrip | src/utils/notification.ts:73 | the count's numeral is non-empty, all digits, and reads back as the count |
| Notification.NotifyDueTasksShape | src/utils/notification.ts:45-84 | no message when nothing is due; otherwise exactly one message per non-empty day group, today's first and tomorrow's last, each with its group's count; the counts add up to the due tasks |
| TaskForm.DefaultValues | src/components/tasks/TaskForm.tsx:64-71 | each field the initial data omits takes its default (empty title and description, no due date, medium, todo); each given field overrides its default |
| TaskForm.EditPrefillsTask | src/components/tasks/TaskForm.tsx:64-71 | editing a task prefills the form with exactly its values |
| TaskForm.Toggled | src/components/tasks/TaskForm.tsx:100-106 | a selected id is removed everywhere, keeping the rest in order; an unselected tag is appended at the end |
| TaskForm.ToggleDeselectCount | src/components/tasks/TaskForm.tsx:100-106 | deselecting keeps every occurrence of each tag with another id, and none with the toggled id |
| TaskForm.ToggleTwiceRestores | src/components/tasks/TaskForm.tsx:100-106 | toggling an unselected tag twice restores the selection |
| TaskForm.ToggleKeepsSelectionFrom | src/components/tasks/TaskForm.tsx:100-106 | toggling a listed tag keeps the selection within the tag list |
| TaskForm.SubmitCall | src/components/tasks/TaskForm.tsx:78-95 | a non-empty task id makes an update whose patch sets title, description if present, due date (null when unset), priority, status and the selection; otherwise an add, with "" for a missing description |
| TaskForm.SubmitKeepsConsistent | src/components/tasks/TaskForm.tsx:78-95 | either call keeps the store's invariant when the selection comes from the tag list and the new id is fresh |
| TaskForm.TaskForm.constructor | src/components/tasks/TaskForm.tsx:62-71 | the selection starts as the initial tags or empty; the defaults are DefaultValues |
| TaskForm.TaskForm.ToggleTag | src/components/tasks/TaskForm.tsx:100-106 | the selection becomes its toggled value |
| TaskForm.TaskForm.Submit | src/components/tasks/TaskForm.tsx:78-98 | values failing the schema (empty title) reach no store action; valid ones make the SubmitCall action, and the tasks key then holds the new list; tags, theme, view and the other storage keys are unchanged; invariant kept |
| CommentSection.TrimStart | src/components/comments/CommentSection.tsx:29 | a suffix of the text that starts with no whitespace, with only whitespace cut |
| CommentSection.TrimEnd | src/components/comments/CommentSection.tsx:29 | a prefix of the text that ends with no whitespace, with only whitespace cut |
| CommentSection.TrimEmptyIffBlank | src/components/comments/CommentSection.tsx:29 | the trimmed draft is empty exactly when it is all whitespace |
| CommentSection.FindTask | src/components/comments/CommentSection.tsx:20 | none exactly when no task carries the id; otherwise the first task that does |
| CommentSection.Render | src/components/comments/CommentSection.tsx:20-59 | "Task not found" exactly for an unknown id; otherwise the first matching task and a permutation of its comments, newest first |
| CommentSection.NewestFirstIsTotalPreorder | src/components/comments/CommentSection.tsx:59 | the newest-first comparator is a valid sort order |
| CommentSection.DeletedCommentNotShown | src/components/comments/CommentSection.tsx:91 | after a listed comment is deleted, the panel lists no comment with its id |
| CommentSection.CommentSection.constructor | src/components/comments/CommentSection.tsx:17-18 | an empty draft and the author "User" |
| CommentSection.CommentSection.HandleSubmit | src/components/comments/CommentSection.tsx:20-33 | for an unknown task (no form is shown) or a blank draft nothing changes; otherwise the draft is added untrimmed under the author, the tasks key holds the new list, and the draft is cleared; nothing else changes; invariant kept for a fresh comment id |
| CommentSection.CommentSection.DeleteListedComment | src/components/comments/CommentSection.tsx:20-91 | for an unknown task (no comment is listed) nothing changes; otherwise that comment leaves this panel's task and the tasks key holds the new list; nothing else changes; invariant kept |

## Left out

- Corrupt JSON in storage, which makes the loaders throw, is not modelled. Storage holds typed values, and an absent key loads as `[]` or light.
- The `as AppTheme` cast accepts any stored string; the model's theme is always light or dark.
- The `dark` class toggled on the document root by `setTheme` and `initializeStore` is a side effect on the page, not on the store.
- `showNotification` and its permission request are left out: the notifier returns the messages instead of showing them.
- The hourly timer that calls `checkNotifications` is left out; each call is modelled on its own.
- Date strings, `Date` parsing and invalid dates (NaN) are left out. Dates are integers and an unset date is None.
- Notification.LocalDay: uses a fixed time-zone offset. Clearing the hours of a local date under daylight-saving changes is not modelled.
- Notification.NotifyDueTasks: the clock is read once. The source reads it again inside each group's filter.
- Search.Lower: lower-cases ASCII letters only, not the full Unicode case mapping of `toLowerCase`.
- CommentSection.IsWhitespace: only the ASCII whitespace characters count. `trim` also strips Unicode spaces and line terminators.
- Sorting.SortBy: is one stable insertion sort. The views' contracts state only what any correct sort gives: a permutation in comparator order. The platform's algorithm and its order among equal keys are not modelled.
- Ids are parameters. The model does not capture that two clock-generated ids can coincide.
- TaskOps.AddCommentTo: gives every task carrying the task id the same comment id and time. The source reads the clock once per matching task, so those ids and times can differ.
- `onComplete` after a submit, the form library's field state and messages, and all rendering (JSX, avatars, dates shown) are left out. The schema's required title is the only validation kept.
- TaskForm.SubmitCall: a description the form leaves undefined is modelled as absent from the patch. In the source, the spread writes `undefined` into the task.
- Drag start and drag over only carry the task id through the browser's drag data. Only the drop's effect is modelled.
