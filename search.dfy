/**
 * The search box shared by the list and the board: a task stays when the lower-cased query
 * occurs in its lower-cased title, description or one of its tag names.
 */
module Search {
  import opened Types
  import opened Sequences

  /** Lower-casing of one character, for the ASCII letters. */
  function LowerChar(c: char): char {
    if 'A' <= c <= 'Z' then (c as int + 32) as char else c
  }

  /** `toLowerCase`: every character lower-cased, the length kept. */
  function Lower(s: string): (r: string)
    ensures |r| == |s|
    ensures forall i :: 0 <= i < |s| ==> r[i] == LowerChar(s[i])
  {
    if s == [] then [] else [LowerChar(s[0])] + Lower(s[1..])
  }

  /** `hay.includes(needle)`, by trying each start position in turn. */
  function Includes(hay: string, needle: string): bool
    decreases |hay|
  {
    if |needle| > |hay| then false
    else if hay[..|needle|] == needle then true
    else Includes(hay[1..], needle)
  }

  /** `needle` occurs in `hay` starting at position `i`. */
  predicate OccursAt(hay: string, needle: string, i: int) {
    0 <= i && i + |needle| <= |hay| && hay[i..i + |needle|] == needle
  }

  /** Includes holds exactly when `needle` occurs somewhere in `hay`. */
  lemma {:induction false} IncludesIffOccurs(hay: string, needle: string)
    ensures Includes(hay, needle) <==> exists i :: OccursAt(hay, needle, i)
    decreases |hay|
  {
    if |needle| <= |hay| && hay[..|needle|] != needle {
      IncludesIffOccurs(hay[1..], needle);
      if exists i :: OccursAt(hay, needle, i) {
        var i :| OccursAt(hay, needle, i);
        assert i != 0;
        assert hay[1..][i - 1..i - 1 + |needle|] == hay[i..i + |needle|];
        assert OccursAt(hay[1..], needle, i - 1);
      }
      if Includes(hay[1..], needle) {
        var i :| OccursAt(hay[1..], needle, i);
        assert hay[i + 1..i + 1 + |needle|] == hay[1..][i..i + |needle|];
        assert OccursAt(hay, needle, i + 1);
      }
    } else if |needle| <= |hay| {
      assert OccursAt(hay, needle, 0);
    }
  }

  /** The filter test of the list and the board. */
  predicate Matches(t: Task, search: string) {
    var q := Lower(search);
    Includes(Lower(t.title), q)
    || Includes(Lower(t.description), q)
    || exists j :: 0 <= j < |t.tags| && Includes(Lower(t.tags[j].name), q)
  }

  /** `tasks.filter(...)` with the search test, in list order. */
  function FilterTasks(tasks: seq<Task>, search: string): (r: seq<Task>)
    ensures IsSubseq(r, tasks)
    ensures forall i :: 0 <= i < |r| ==> r[i] in tasks && Matches(r[i], search)
    ensures forall t :: t in tasks && Matches(t, search) ==> t in r
  {
    if tasks == [] then []
    else
      var rest := FilterTasks(tasks[1..], search);
      assert tasks == [tasks[0]] + tasks[1..];
      if Matches(tasks[0], search) then
        IsSubseqCons(tasks[0], rest, tasks[1..]);
        [tasks[0]] + rest
      else
        IsSubseqSkip(tasks[0], rest, tasks[1..]);
        rest
  }

  /** The search filter keeps every occurrence of a matching task and none of any other. */
  lemma {:induction false} FilterTasksCount(tasks: seq<Task>, search: string, t: Task)
    ensures multiset(FilterTasks(tasks, search))[t] == if Matches(t, search) then multiset(tasks)[t] else 0
  {
    if tasks != [] {
      FilterTasksCount(tasks[1..], search, t);
      assert tasks == [tasks[0]] + tasks[1..];
      assert multiset(tasks) == multiset{tasks[0]} + multiset(tasks[1..]);
    }
  }

  /** An empty search keeps every task, in order. */
  lemma {:induction false} EmptySearchKeepsAll(tasks: seq<Task>)
    ensures FilterTasks(tasks, "") == tasks
  {
    if tasks != [] {
      EmptySearchKeepsAll(tasks[1..]);
      assert Lower(tasks[0].title)[..0] == [];
      assert Matches(tasks[0], "");
    }
  }
}
