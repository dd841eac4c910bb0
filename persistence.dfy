/** Browser local storage as the store sees it: three keys, each present or absent. */
module Persistence {
  import opened Types

  class Storage {
    /** The value under each key; None when the key was never written. */
    var tasks: Option<seq<Task>>
    var tags: Option<seq<Tag>>
    var theme: Option<AppTheme>

    constructor (tasks: Option<seq<Task>>, tags: Option<seq<Tag>>, theme: Option<AppTheme>)
      ensures this.tasks == tasks && this.tags == tags && this.theme == theme
    {
      this.tasks := tasks;
      this.tags := tags;
      this.theme := theme;
    }

    /** `getStoredTasks`: the stored list, or the empty list when the key is absent. */
    function LoadTasks(): seq<Task>
      reads this
    {
      tasks.GetOr([])
    }

    /** `getStoredTags`: the stored list, or the empty list when the key is absent. */
    function LoadTags(): seq<Tag>
      reads this
    {
      tags.GetOr([])
    }

    /** `getStoredTheme`: the stored theme, or light when the key is absent. */
    function LoadTheme(): AppTheme
      reads this
    {
      theme.GetOr(Light)
    }

    /** `setStoredTasks`: overwrite the tasks key; loading it back gives the same list. */
    method SaveTasks(ts: seq<Task>)
      modifies this`tasks
      ensures tasks == Some(ts) && LoadTasks() == ts
    {
      tasks := Some(ts);
    }

    /** `setStoredTags`: overwrite the tags key; loading it back gives the same list. */
    method SaveTags(gs: seq<Tag>)
      modifies this`tags
      ensures tags == Some(gs) && LoadTags() == gs
    {
      tags := Some(gs);
    }

    /** `setStoredTheme`: overwrite the theme key; loading it back gives the same theme. */
    method SaveTheme(t: AppTheme)
      modifies this`theme
      ensures theme == Some(t) && LoadTheme() == t
    {
      theme := Some(t);
    }
  }
}
