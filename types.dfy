/** The application's data model: tasks that embed tag copies and own their comments. */
module Types {

  datatype Option<+T> = None | Some(value: T) {
    /** The wrapped value, or `default` when there is none. */
    function GetOr(default: T): T {
      match this
      case Some(v) => v
      case None => default
    }
  }

  datatype Priority = High | Medium | Low

  datatype Status = Todo | InProgress | Completed

  datatype View = Board | List | Calendar

  datatype AppTheme = Light | Dark

  /** A labelled category; tasks hold full copies of it, not its id. */
  datatype Tag = Tag(id: string, name: string, color: string)

  /** A remark; `taskId` points back at the task whose `comments` hold it. */
  datatype Comment = Comment(id: string, taskId: string, content: string, author: string, createdAt: int)

  /** A unit of work. Dates are millisecond timestamps; `dueDate` is None for the source's null. */
  datatype Task = Task(
    id: string,
    title: string,
    description: string,
    dueDate: Option<int>,
    priority: Priority,
    status: Status,
    tags: seq<Tag>,
    createdAt: int,
    comments: seq<Comment>)

  /** What `addTask` receives: a task without id, createdAt and comments. */
  datatype TaskFields = TaskFields(
    title: string,
    description: string,
    dueDate: Option<int>,
    priority: Priority,
    status: Status,
    tags: seq<Tag>)

  /** A partial task: a present field replaces the task's own, an absent one keeps it. */
  datatype TaskPatch = TaskPatch(
    id: Option<string>,
    title: Option<string>,
    description: Option<string>,
    dueDate: Option<Option<int>>,
    priority: Option<Priority>,
    status: Option<Status>,
    tags: Option<seq<Tag>>,
    createdAt: Option<int>,
    comments: Option<seq<Comment>>)

  /** A partial tag. */
  datatype TagPatch = TagPatch(id: Option<string>, name: Option<string>, color: Option<string>)

  function NoPatch(): TaskPatch {
    TaskPatch(None, None, None, None, None, None, None, None, None)
  }

  /** The patch a board drop sends: only the status. */
  function StatusPatch(s: Status): (p: TaskPatch)
    ensures p.status == Some(s)
    ensures p.(status := None) == NoPatch()
  {
    NoPatch().(status := Some(s))
  }
}
