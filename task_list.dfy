/**
 * The task list of the to-do app as a value: the records it holds and the new
 * lists that the app's handlers compute from it (append, map and filter over
 * the current list), with the properties those computations promise.
 */
module TaskList {
  import opened JsString

  /** One to-do item. `id` is a creation timestamp in the app; nothing forces
      two items to have different ids. */
  datatype Task = Task(id: int, text: string, completed: bool)

  predicate HasId(tasks: seq<Task>, id: int) {
    exists i :: 0 <= i < |tasks| && tasks[i].id == id
  }

  /** No two items share an id (what a clock that never repeats would give). */
  ghost predicate UniqueIds(tasks: seq<Task>) {
    forall i, j :: 0 <= i < j < |tasks| ==> tasks[i].id != tasks[j].id
  }

  /** `a` is `b` with some items left out, the rest in the same relative order. */
  ghost predicate IsSubsequence(a: seq<Task>, b: seq<Task>)
    decreases |b|
  {
    a == [] || (b != [] && ((a[0] == b[0] && IsSubsequence(a[1..], b[1..])) || IsSubsequence(a, b[1..])))
  }

  lemma {:induction false} SubsequenceReflexive(s: seq<Task>)
    ensures IsSubsequence(s, s)
  {
    if s != [] { SubsequenceReflexive(s[1..]); }
  }

  /** `s` is a merge of `a` and `b` that keeps the relative order of each. */
  ghost predicate IsInterleaving(a: seq<Task>, b: seq<Task>, s: seq<Task>)
    decreases |s|
  {
    if s == [] then a == [] && b == []
    else
      (a != [] && a[0] == s[0] && IsInterleaving(a[1..], b, s[1..]))
      || (b != [] && b[0] == s[0] && IsInterleaving(a, b[1..], s[1..]))
  }

  // ---------------------------------------------------------------------------
  // Array.prototype.filter over tasks

  /** The items of `s` that `keep` accepts, in their original order
      (`FilterMembers`, `FilterIsSubsequence`). */
  function Filter(s: seq<Task>, keep: Task -> bool): (r: seq<Task>)
    ensures |r| <= |s|
    ensures forall i :: 0 <= i < |r| ==> keep(r[i])
  {
    if s == [] then []
    else if keep(s[0]) then [s[0]] + Filter(s[1..], keep)
    else Filter(s[1..], keep)
  }

  /** An item is in the filtered list iff it is in the list and accepted. */
  lemma {:induction false} FilterMembers(s: seq<Task>, keep: Task -> bool)
    ensures forall t :: t in Filter(s, keep) <==> t in s && keep(t)
  {
    if s != [] {
      FilterMembers(s[1..], keep);
      assert s == [s[0]] + s[1..];
    }
  }

  /** The filtered list keeps the relative order of the items it keeps. */
  lemma {:induction false} FilterIsSubsequence(s: seq<Task>, keep: Task -> bool)
    ensures IsSubsequence(Filter(s, keep), s)
  {
    if s != [] {
      FilterIsSubsequence(s[1..], keep);
      var r := Filter(s, keep);
      if keep(s[0]) {
        assert r[0] == s[0] && r[1..] == Filter(s[1..], keep);
      }
    }
  }

  lemma {:induction false} FilterIdempotent(s: seq<Task>, keep: Task -> bool)
    ensures Filter(Filter(s, keep), keep) == Filter(s, keep)
  {
    if s != [] {
      FilterIdempotent(s[1..], keep);
      if keep(s[0]) {
        var f := Filter(s[1..], keep);
        assert ([s[0]] + f)[0] == s[0] && ([s[0]] + f)[1..] == f;
      }
    }
  }

  lemma FilterCons(s: seq<Task>, keep: Task -> bool)
    requires s != []
    ensures Filter(s, keep) == (if keep(s[0]) then [s[0]] else []) + Filter(s[1..], keep)
  {
  }

  /** Filtering a concatenation is concatenating the filtered parts. */
  lemma {:induction false} FilterAppend(a: seq<Task>, b: seq<Task>, keep: Task -> bool)
    ensures Filter(a + b, keep) == Filter(a, keep) + Filter(b, keep)
  {
    if a == [] {
      assert a + b == b;
    } else {
      var ab, head := a + b, if keep(a[0]) then [a[0]] else [];
      assert ab[0] == a[0] && ab[1..] == a[1..] + b;
      calc {
        Filter(ab, keep);
      == { FilterCons(ab, keep); }
        head + Filter(a[1..] + b, keep);
      == { FilterAppend(a[1..], b, keep); }
        head + (Filter(a[1..], keep) + Filter(b, keep));
      ==
        (head + Filter(a[1..], keep)) + Filter(b, keep);
      == { FilterCons(a, keep); }
        Filter(a, keep) + Filter(b, keep);
      }
    }
  }

  /** Filtering changes nothing exactly when every item is accepted. */
  lemma {:induction false} FilterUnchangedIff(s: seq<Task>, keep: Task -> bool)
    ensures Filter(s, keep) == s <==> forall i :: 0 <= i < |s| ==> keep(s[i])
  {
    if forall i :: 0 <= i < |s| ==> keep(s[i]) {
      if s != [] {
        assert forall i :: 0 <= i < |s| - 1 ==> s[1..][i] == s[i + 1];
        FilterUnchangedIff(s[1..], keep);
        assert keep(s[0]);
        assert s == [s[0]] + s[1..];
      }
    } else {
      var i :| 0 <= i < |s| && !keep(s[i]);
      assert s[i] in s;
    }
  }

  /** A filtered list of items with distinct ids still has distinct ids. */
  lemma {:induction false} FilterKeepsUniqueIds(s: seq<Task>, keep: Task -> bool)
    requires UniqueIds(s)
    ensures UniqueIds(Filter(s, keep))
  {
    if s != [] {
      var rest := Filter(s[1..], keep);
      FilterKeepsUniqueIds(s[1..], keep);
      FilterMembers(s[1..], keep);
      if keep(s[0]) {
        var r := [s[0]] + rest;
        forall i, j | 0 <= i < j < |r| ensures r[i].id != r[j].id {
          if i == 0 {
            assert r[j] == rest[j - 1] && rest[j - 1] in s[1..];
            var k :| 0 <= k < |s[1..]| && s[1..][k] == r[j];
            assert s[k + 1] == r[j];
          } else {
            assert r[i] == rest[i - 1] && r[j] == rest[j - 1];
          }
        }
      }
    }
  }

  // ---------------------------------------------------------------------------
  // Adding: `[...tasks, { id, text: input.trim(), completed: false }]` unless blank

  /** The list after adding `input` with the given id: unchanged exactly when
      `input` is blank; otherwise one new, incomplete item with the trimmed text
      at the end, and every earlier item where it was. */
  function Added(tasks: seq<Task>, input: string, id: int): (r: seq<Task>)
    ensures r == tasks <==> AllWhitespace(input)
    ensures !AllWhitespace(input) ==>
      |r| == |tasks| + 1 && r[..|tasks|] == tasks
      && r[|tasks|].id == id && r[|tasks|].text == Trim(input) && !r[|tasks|].completed
  {
    var text := Trim(input);
    if text == [] then tasks else tasks + [Task(id, text, false)]
  }

  /** An id that no item has yet keeps the ids distinct (a clock that moves
      forward always gives one, but any unused id will do). */
  lemma AddFreshIdKeepsUniqueIds(tasks: seq<Task>, input: string, id: int)
    requires UniqueIds(tasks)
    requires !HasId(tasks, id)
    ensures UniqueIds(Added(tasks, input, id))
  {
  }

  // ---------------------------------------------------------------------------
  // Toggling: `tasks.map(t => t.id === id ? { ...t, completed: !t.completed } : t)`

  /** Every item with the given id has its `completed` flag flipped, and only
      those; ids, texts and positions stay as they were. */
  function Toggled(tasks: seq<Task>, id: int): (r: seq<Task>)
    ensures |r| == |tasks|
    ensures forall i :: 0 <= i < |tasks| ==>
      r[i].id == tasks[i].id && r[i].text == tasks[i].text
      && (r[i].completed != tasks[i].completed <==> tasks[i].id == id)
  {
    if tasks == [] then []
    else
      var t := tasks[0];
      [if t.id == id then t.(completed := !t.completed) else t] + Toggled(tasks[1..], id)
  }

  /** Toggling the same id twice restores the list. */
  lemma ToggleInvolution(tasks: seq<Task>, id: int)
    ensures Toggled(Toggled(tasks, id), id) == tasks
  {
  }

  /** Toggling leaves the list unchanged exactly when no item has that id. */
  lemma ToggleUnchangedIff(tasks: seq<Task>, id: int)
    ensures Toggled(tasks, id) == tasks <==> !HasId(tasks, id)
  {
  }

  /** With distinct ids, toggling flips the one item that has the id. */
  lemma ToggleUniqueId(tasks: seq<Task>, id: int, k: nat)
    requires UniqueIds(tasks)
    requires k < |tasks| && tasks[k].id == id
    ensures Toggled(tasks, id) == tasks[k := tasks[k].(completed := !tasks[k].completed)]
  {
  }

  lemma ToggleKeepsUniqueIds(tasks: seq<Task>, id: int)
    requires UniqueIds(tasks)
    ensures UniqueIds(Toggled(tasks, id))
  {
  }

  // ---------------------------------------------------------------------------
  // Saving an edit: `tasks.map(t => t.id === id ? { ...t, text: editText } : t)`

  /** Every item with the given id gets exactly `text` (not trimmed); every
      other item, every id and every `completed` flag is unchanged. */
  function Renamed(tasks: seq<Task>, id: int, text: string): (r: seq<Task>)
    ensures |r| == |tasks|
    ensures forall i :: 0 <= i < |tasks| ==>
      r[i].id == tasks[i].id && r[i].completed == tasks[i].completed
      && (tasks[i].id == id ==> r[i].text == text)
      && (tasks[i].id != id ==> r[i] == tasks[i])
  {
    if tasks == [] then []
    else
      var t := tasks[0];
      [if t.id == id then t.(text := text) else t] + Renamed(tasks[1..], id, text)
  }

  /** Saving the same text twice is saving it once. */
  lemma RenameIdempotent(tasks: seq<Task>, id: int, text: string)
    ensures Renamed(Renamed(tasks, id, text), id, text) == Renamed(tasks, id, text)
  {
  }

  /** Saving under an id that no item has leaves the list unchanged. */
  lemma RenameAbsentId(tasks: seq<Task>, id: int, text: string)
    requires !HasId(tasks, id)
    ensures Renamed(tasks, id, text) == tasks
  {
  }

  /** With distinct ids, saving rewrites the text of the one item with the id. */
  lemma RenameUniqueId(tasks: seq<Task>, id: int, text: string, k: nat)
    requires UniqueIds(tasks)
    requires k < |tasks| && tasks[k].id == id
    ensures Renamed(tasks, id, text) == tasks[k := tasks[k].(text := text)]
  {
  }

  lemma RenameKeepsUniqueIds(tasks: seq<Task>, id: int, text: string)
    requires UniqueIds(tasks)
    ensures UniqueIds(Renamed(tasks, id, text))
  {
  }

  // ---------------------------------------------------------------------------
  // Deleting: `tasks.filter(t => t.id !== id)`

  function NotId(id: int): Task -> bool {
    (t: Task) => t.id != id
  }

  /** The items whose id differs from `id`, in their original order. */
  function Deleted(tasks: seq<Task>, id: int): (r: seq<Task>)
    ensures forall t :: t in r <==> t in tasks && t.id != id
    ensures IsSubsequence(r, tasks)
    ensures !HasId(r, id)
  {
    var r := Filter(tasks, NotId(id));
    FilterMembers(tasks, NotId(id));
    FilterIsSubsequence(tasks, NotId(id));
    r
  }

  function WithId(id: int): Task -> bool {
    (t: Task) => t.id == id
  }

  /** Deleting splits the list in two: it is an order-keeping merge of what is
      kept and the items with the id, so every copy of every other item is kept
      and the multisets and lengths add up. */
  lemma DeleteSplit(tasks: seq<Task>, id: int)
    ensures IsInterleaving(Deleted(tasks, id), Filter(tasks, WithId(id)), tasks)
    ensures multiset(Deleted(tasks, id)) + multiset(Filter(tasks, WithId(id))) == multiset(tasks)
    ensures |Deleted(tasks, id)| + |Filter(tasks, WithId(id))| == |tasks|
  {
    DeleteInterleaving(tasks, id);
    InterleavingCounts(Deleted(tasks, id), Filter(tasks, WithId(id)), tasks);
  }

  lemma {:induction false} DeleteInterleaving(tasks: seq<Task>, id: int)
    ensures IsInterleaving(Filter(tasks, NotId(id)), Filter(tasks, WithId(id)), tasks)
  {
    if tasks != [] {
      DeleteInterleaving(tasks[1..], id);
      FilterCons(tasks, NotId(id));
      FilterCons(tasks, WithId(id));
    }
  }

  /** Deleting twice is deleting once. */
  lemma DeleteIdempotent(tasks: seq<Task>, id: int)
    ensures Deleted(Deleted(tasks, id), id) == Deleted(tasks, id)
  {
    FilterIdempotent(tasks, NotId(id));
  }

  /** Deleting leaves the list unchanged exactly when no item has that id. */
  lemma DeleteUnchangedIff(tasks: seq<Task>, id: int)
    ensures Deleted(tasks, id) == tasks <==> !HasId(tasks, id)
  {
    FilterUnchangedIff(tasks, NotId(id));
  }

  /** With distinct ids, deleting removes the one item with the id and closes
      the gap. */
  lemma DeleteUniqueId(tasks: seq<Task>, id: int, k: nat)
    requires UniqueIds(tasks)
    requires k < |tasks| && tasks[k].id == id
    ensures Deleted(tasks, id) == tasks[..k] + tasks[k + 1..]
  {
    var before, after, keep := tasks[..k], tasks[k + 1..], NotId(id);
    forall i | 0 <= i < |before| ensures keep(before[i]) {
      assert before[i] == tasks[i];
    }
    forall i | 0 <= i < |after| ensures keep(after[i]) {
      assert after[i] == tasks[k + 1 + i];
    }
    FilterUnchangedIff(before, keep);
    FilterUnchangedIff(after, keep);
    assert tasks == before + tasks[k..] && tasks[k..][1..] == after;
    FilterAppend(before, tasks[k..], keep);
    assert !keep(tasks[k..][0]);
  }

  lemma DeleteKeepsUniqueIds(tasks: seq<Task>, id: int)
    requires UniqueIds(tasks)
    ensures UniqueIds(Deleted(tasks, id))
  {
    FilterKeepsUniqueIds(tasks, NotId(id));
  }

  // ---------------------------------------------------------------------------
  // The filtered view

  predicate IsDone(t: Task) { t.completed }
  predicate IsOpen(t: Task) { !t.completed }

  /** `filteredTasks`: the completed items for "completed", the incomplete ones
      for "incomplete", and the whole list for any other filter value; always
      in list order. */
  function FilteredTasks(tasks: seq<Task>, filter: string): (r: seq<Task>)
    ensures filter == "completed" ==> forall t :: t in r <==> t in tasks && t.completed
    ensures filter == "incomplete" ==> forall t :: t in r <==> t in tasks && !t.completed
    ensures filter != "completed" && filter != "incomplete" ==> r == tasks
    ensures IsSubsequence(r, tasks)
  {
    FilterMembers(tasks, IsDone);
    FilterMembers(tasks, IsOpen);
    FilterIsSubsequence(tasks, IsDone);
    FilterIsSubsequence(tasks, IsOpen);
    SubsequenceReflexive(tasks);
    if filter == "completed" then Filter(tasks, IsDone)
    else if filter == "incomplete" then Filter(tasks, IsOpen)
    else tasks
  }

  /** The completed and the incomplete view split the list: the list is a merge
      of the two that keeps each one's order, so every item is in exactly one
      of them and their lengths add up to the list's. */
  lemma {:induction false} ViewsPartition(tasks: seq<Task>)
    ensures IsInterleaving(FilteredTasks(tasks, "completed"), FilteredTasks(tasks, "incomplete"), tasks)
    ensures multiset(FilteredTasks(tasks, "completed")) + multiset(FilteredTasks(tasks, "incomplete")) == multiset(tasks)
    ensures |FilteredTasks(tasks, "completed")| + |FilteredTasks(tasks, "incomplete")| == |tasks|
  {
    CompletionInterleaving(tasks);
    InterleavingCounts(Filter(tasks, IsDone), Filter(tasks, IsOpen), tasks);
  }

  lemma {:induction false} CompletionInterleaving(tasks: seq<Task>)
    ensures IsInterleaving(Filter(tasks, IsDone), Filter(tasks, IsOpen), tasks)
  {
    if tasks != [] {
      CompletionInterleaving(tasks[1..]);
      FilterCons(tasks, IsDone);
      FilterCons(tasks, IsOpen);
    }
  }

  /** A merge of two lists holds exactly their items. */
  lemma {:induction false} InterleavingCounts(a: seq<Task>, b: seq<Task>, s: seq<Task>)
    requires IsInterleaving(a, b, s)
    ensures multiset(a) + multiset(b) == multiset(s)
    ensures |a| + |b| == |s|
  {
    if s != [] {
      assert s == [s[0]] + s[1..];
      if a != [] && a[0] == s[0] && IsInterleaving(a[1..], b, s[1..]) {
        InterleavingCounts(a[1..], b, s[1..]);
        assert a == [a[0]] + a[1..];
      } else {
        InterleavingCounts(a, b[1..], s[1..]);
        assert b == [b[0]] + b[1..];
      }
    }
  }

  // ---------------------------------------------------------------------------
  // Non-blank texts

  /** Every item has some non-white-space text. */
  predicate TextsNotBlank(tasks: seq<Task>) {
    forall i :: 0 <= i < |tasks| ==> !AllWhitespace(tasks[i].text)
  }

  /** Adding keeps every text non-blank: a non-blank input is stored trimmed,
      and the trimmed text of a non-blank input is not blank. */
  lemma AddKeepsTextsNotBlank(tasks: seq<Task>, input: string, id: int)
    requires TextsNotBlank(tasks)
    ensures TextsNotBlank(Added(tasks, input, id))
  {
    var a := Added(tasks, input, id);
    if a != tasks {
      assert !IsWhitespace(Trim(input)[0]);
      forall i | 0 <= i < |a| ensures !AllWhitespace(a[i].text) {
        if i < |tasks| { assert a[i] == a[..|tasks|][i]; }
      }
    }
  }

  lemma ToggleKeepsTextsNotBlank(tasks: seq<Task>, id: int)
    requires TextsNotBlank(tasks)
    ensures TextsNotBlank(Toggled(tasks, id))
  {
  }

  lemma DeleteKeepsTextsNotBlank(tasks: seq<Task>, id: int)
    requires TextsNotBlank(tasks)
    ensures TextsNotBlank(Deleted(tasks, id))
  {
    var d := Deleted(tasks, id);
    forall i | 0 <= i < |d| ensures !AllWhitespace(d[i].text) {
      assert d[i] in tasks;
    }
  }

  /** Saving keeps every text non-blank only when the draft is not blank. The
      task card disables its save button for a blank draft; saving itself does
      not check. */
  lemma RenameKeepsTextsNotBlank(tasks: seq<Task>, id: int, text: string)
    requires TextsNotBlank(tasks)
    requires !AllWhitespace(text)
    ensures TextsNotBlank(Renamed(tasks, id, text))
  {
  }

  /** Saving does not trim: a draft with surrounding spaces is stored as typed,
      whereas adding the same text would store it trimmed. */
  lemma SaveKeepsSurroundingSpaces()
    ensures Renamed([Task(1, "a", false)], 1, " b ") == [Task(1, " b ", false)]
    ensures Added([], " b ", 1) == [Task(1, "b", false)]
  {
    assert !AllWhitespace(" b ") by { assert !IsWhitespace(" b "[1]); }
    assert LeadingWhitespace(" b ") == 1;
    assert TrailingWhitespace(" b ") == 1;
    assert Trim(" b ") == " b "[1..2] == "b";
  }
}
