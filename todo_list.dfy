/**
 * The task list as a value: the `Todo` record, the array methods the app uses
 * (`filter`, `map`, spread-append) and the list transforms its handlers pass
 * to `setTodos`, with the stats derived from the list on every render.
 */
module TodoList {

  datatype Option<T> = None | Some(value: T)

  /** A todo id: the millisecond clock reading `Date.now()` at creation. */
  type Id = int

  /** One task. `createdAt` and `updatedAt` hold the formatted date strings the
      app stores; `updatedAt` is absent until the first toggle or edit. */
  datatype Todo = Todo(id: Id, text: string, completed: bool, createdAt: string, updatedAt: Option<string>)

  /** The three counters shown above the list. */
  datatype Stats = Stats(total: nat, completed: nat, pending: int)

  // ---------------------------------------------------------------------------
  // Array.prototype.filter and Array.prototype.map on sequences

  /** `s.filter(keep)`: the elements of `s` for which `keep` holds. */
  function Filter<T(!new)>(s: seq<T>, keep: T -> bool): (r: seq<T>)
    ensures |r| <= |s|
    ensures forall x :: x in r <==> x in s && keep(x)
  {
    if s == [] then [] else (if keep(s[0]) then [s[0]] else []) + Filter(s[1..], keep)
  }

  /** `s.map(f)`: same length, the i-th result is `f` of the i-th element. */
  function Map<T, U>(s: seq<T>, f: T -> U): (r: seq<U>)
    ensures |r| == |s|
    ensures forall i :: 0 <= i < |s| ==> r[i] == f(s[i])
  {
    if s == [] then [] else [f(s[0])] + Map(s[1..], f)
  }

  /** Filtering distributes over concatenation: the kept elements stay in
      their original relative order. */
  lemma {:induction false} FilterConcat<T(!new)>(a: seq<T>, b: seq<T>, keep: T -> bool)
    ensures Filter(a + b, keep) == Filter(a, keep) + Filter(b, keep)
  {
    if a != [] {
      assert (a + b)[1..] == a[1..] + b;
      FilterConcat(a[1..], b, keep);
    } else {
      assert a + b == b;
    }
  }

  /** Filtering keeps every occurrence of a kept element and no occurrence of
      a dropped one. */
  lemma {:induction false} FilterCounts<T(!new)>(s: seq<T>, keep: T -> bool, x: T)
    ensures multiset(Filter(s, keep))[x] == if keep(x) then multiset(s)[x] else 0
  {
    if s != [] {
      FilterCounts(s[1..], keep, x);
      assert s == [s[0]] + s[1..];
      assert multiset(s) == multiset([s[0]]) + multiset(s[1..]);
    }
  }

  /** Filtering twice with the same predicate filters once. */
  lemma {:induction false} FilterIdempotent<T(!new)>(s: seq<T>, keep: T -> bool)
    ensures Filter(Filter(s, keep), keep) == Filter(s, keep)
  {
    if s != [] {
      FilterIdempotent(s[1..], keep);
      FilterConcat(if keep(s[0]) then [s[0]] else [], Filter(s[1..], keep), keep);
    }
  }

  /** Filtering a sequence whose elements are all kept returns it unchanged. */
  lemma {:induction false} FilterKeepsAll<T(!new)>(s: seq<T>, keep: T -> bool)
    requires forall i :: 0 <= i < |s| ==> keep(s[i])
    ensures Filter(s, keep) == s
  {
    if s != [] {
      FilterKeepsAll(s[1..], keep);
    }
  }

  /** A map that never changes whether an element is kept leaves the number
      of kept elements unchanged. */
  lemma {:induction false} FilterMapSameCount<T(!new)>(s: seq<T>, f: T -> T, keep: T -> bool)
    requires forall x :: keep(f(x)) == keep(x)
    ensures |Filter(Map(s, f), keep)| == |Filter(s, keep)|
  {
    if s != [] {
      assert Map(s, f)[1..] == Map(s[1..], f);
      FilterMapSameCount(s[1..], f, keep);
    }
  }

  // ---------------------------------------------------------------------------
  // Stats

  predicate IsDone(t: Todo) { t.completed }
  predicate IsOpen(t: Todo) { !t.completed }

  /** `totalTodos`, `completedTodos` (the length of the completed filter) and
      `pendingTodos = totalTodos - completedTodos`. */
  function ComputeStats(todos: seq<Todo>): (st: Stats)
    ensures st.total == |todos|
    ensures st.completed <= st.total && st.pending >= 0
    ensures st.completed + st.pending == st.total
  {
    var completed := |Filter(todos, IsDone)|;
    Stats(|todos|, completed, |todos| - completed)
  }

  /** Every item is either completed or open. */
  lemma {:induction false} DoneAndOpenPartition(todos: seq<Todo>)
    ensures |Filter(todos, IsDone)| + |Filter(todos, IsOpen)| == |todos|
  {
    if todos != [] {
      DoneAndOpenPartition(todos[1..]);
    }
  }

  /** `pending`, computed as total minus completed, is the number of items
      not yet completed. */
  lemma {:induction false} StatsCountItems(todos: seq<Todo>)
    ensures ComputeStats(todos).pending == |Filter(todos, IsOpen)|
  {
    DoneAndOpenPartition(todos);
  }

  // ---------------------------------------------------------------------------
  // addTodo: `[...prev, todo]`

  /** The record `addTodo` builds: the text as typed, not completed. */
  function NewTodo(id: Id, text: string, createdAt: string): (t: Todo)
    ensures t.id == id && t.text == text && !t.completed
    ensures t.createdAt == createdAt && t.updatedAt == None
  {
    Todo(id, text, false, createdAt, None)
  }

  /** Appending a fresh (not completed) item adds one to total and to pending
      and leaves completed as it was. */
  lemma AppendStats(todos: seq<Todo>, t: Todo)
    requires !t.completed
    ensures ComputeStats(todos + [t]) ==
      Stats(ComputeStats(todos).total + 1, ComputeStats(todos).completed, ComputeStats(todos).pending + 1)
  {
    FilterConcat(todos, [t], IsDone);
    assert Filter([t], IsDone) == [];
  }

  // ---------------------------------------------------------------------------
  // toggleComplete: `prev.map(todo => todo.id === id ? {...} : todo)`

  /** The per-item step of `toggleComplete(id)`. */
  function ToggleStep(id: Id, stamp: string): Todo -> Todo {
    (t: Todo) => if t.id == id then t.(completed := !t.completed, updatedAt := Some(stamp)) else t
  }

  /** Flips `completed` (and stamps `updatedAt`) on every item whose id is `id`;
      every other item is returned as it was, and the order is kept. */
  function ToggleById(todos: seq<Todo>, id: Id, stamp: string): (r: seq<Todo>)
    ensures |r| == |todos|
    ensures forall k :: 0 <= k < |todos| && todos[k].id != id ==> r[k] == todos[k]
    ensures forall k :: 0 <= k < |todos| && todos[k].id == id ==>
      r[k].completed != todos[k].completed && r[k].updatedAt == Some(stamp)
    ensures forall k :: 0 <= k < |todos| ==>
      r[k].id == todos[k].id && r[k].text == todos[k].text && r[k].createdAt == todos[k].createdAt
  {
    Map(todos, ToggleStep(id, stamp))
  }

  /** Toggling the same id twice restores every `completed` flag; the only
      trace left is the second `updatedAt` stamp on the matching items. */
  lemma ToggleTwiceRestores(todos: seq<Todo>, id: Id, s1: string, s2: string)
    ensures var r := ToggleById(ToggleById(todos, id, s1), id, s2);
      |r| == |todos| &&
      forall k :: 0 <= k < |todos| ==>
        r[k] == if todos[k].id == id then todos[k].(updatedAt := Some(s2)) else todos[k]
  {
  }

  /** Toggling an id that no item has leaves the list as it was. */
  lemma ToggleAbsentId(todos: seq<Todo>, id: Id, stamp: string)
    requires forall k :: 0 <= k < |todos| ==> todos[k].id != id
    ensures ToggleById(todos, id, stamp) == todos
  {
  }

  function DoneWithId(id: Id): Todo -> bool {
    (t: Todo) => t.id == id && t.completed
  }

  function OpenWithId(id: Id): Todo -> bool {
    (t: Todo) => t.id == id && !t.completed
  }

  /** Toggling keeps the total; the completed count loses the matching items
      that were completed and gains the matching items that were open. */
  lemma {:induction false} ToggleStats(todos: seq<Todo>, id: Id, stamp: string)
    ensures ComputeStats(ToggleById(todos, id, stamp)).total == ComputeStats(todos).total
    ensures ComputeStats(ToggleById(todos, id, stamp)).completed + |Filter(todos, DoneWithId(id))|
         == ComputeStats(todos).completed + |Filter(todos, OpenWithId(id))|
  {
    if todos != [] {
      ToggleStats(todos[1..], id, stamp);
      assert ToggleById(todos, id, stamp)[1..] == ToggleById(todos[1..], id, stamp);
    }
  }

  // ---------------------------------------------------------------------------
  // saveEdit: `prev.map(todo => todo.id === editingId ? {...} : todo)`

  /** The per-item step of `saveEdit`; a null `editingId` matches no item. */
  function EditStep(editingId: Option<Id>, text: string, stamp: string): Todo -> Todo {
    (t: Todo) => if editingId == Some(t.id) then t.(text := text, updatedAt := Some(stamp)) else t
  }

  /** Writes `text` into every item whose id is `editingId` (none when it is
      null); other items are returned as they were, and the order is kept. */
  function ReplaceText(todos: seq<Todo>, editingId: Option<Id>, text: string, stamp: string): (r: seq<Todo>)
    ensures |r| == |todos|
    ensures forall k :: 0 <= k < |todos| && editingId != Some(todos[k].id) ==> r[k] == todos[k]
    ensures forall k :: 0 <= k < |todos| && editingId == Some(todos[k].id) ==>
      r[k].text == text && r[k].updatedAt == Some(stamp)
    ensures forall k :: 0 <= k < |todos| ==>
      r[k].id == todos[k].id && r[k].completed == todos[k].completed && r[k].createdAt == todos[k].createdAt
  {
    Map(todos, EditStep(editingId, text, stamp))
  }

  /** Committing an edit never changes any of the three counters. */
  lemma ReplaceTextKeepsStats(todos: seq<Todo>, editingId: Option<Id>, text: string, stamp: string)
    ensures ComputeStats(ReplaceText(todos, editingId, text, stamp)) == ComputeStats(todos)
  {
    FilterMapSameCount(todos, EditStep(editingId, text, stamp), IsDone);
  }

  /** With no edit open, committing leaves the list as it was. */
  lemma ReplaceTextWithoutEdit(todos: seq<Todo>, text: string, stamp: string)
    ensures ReplaceText(todos, None, text, stamp) == todos
  {
  }

  // ---------------------------------------------------------------------------
  // deleteTodo: `prev.filter(todo => todo.id !== id)`

  function KeepOther(id: Id): Todo -> bool {
    (t: Todo) => t.id != id
  }

  function HasId(id: Id): Todo -> bool {
    (t: Todo) => t.id == id
  }

  /** Removes every item whose id is `id` and nothing else. */
  function Without(todos: seq<Todo>, id: Id): (r: seq<Todo>)
    ensures |r| <= |todos|
    ensures forall t :: t in r <==> t in todos && t.id != id
  {
    Filter(todos, KeepOther(id))
  }

  /** Deleting exactly shortens the list by the number of items with that id. */
  lemma {:induction false} WithoutLength(todos: seq<Todo>, id: Id)
    ensures |Without(todos, id)| + |Filter(todos, HasId(id))| == |todos|
  {
    if todos != [] {
      WithoutLength(todos[1..], id);
    }
  }

  /** Deleting keeps the remaining items in their original relative order:
      deleting from a concatenation deletes from each part. */
  lemma WithoutKeepsOrder(a: seq<Todo>, b: seq<Todo>, id: Id)
    ensures Without(a + b, id) == Without(a, id) + Without(b, id)
  {
    FilterConcat(a, b, KeepOther(id));
  }

  /** Every remaining item keeps all its occurrences. */
  lemma WithoutCounts(todos: seq<Todo>, id: Id, t: Todo)
    ensures multiset(Without(todos, id))[t] == if t.id == id then 0 else multiset(todos)[t]
  {
    FilterCounts(todos, KeepOther(id), t);
  }

  /** Deleting the same id twice deletes once. */
  lemma WithoutIdempotent(todos: seq<Todo>, id: Id)
    ensures Without(Without(todos, id), id) == Without(todos, id)
  {
    FilterIdempotent(todos, KeepOther(id));
  }

  /** Deleting an id that no item has leaves the list as it was. */
  lemma WithoutAbsentId(todos: seq<Todo>, id: Id)
    requires forall k :: 0 <= k < |todos| ==> todos[k].id != id
    ensures Without(todos, id) == todos
  {
    FilterKeepsAll(todos, KeepOther(id));
  }
}
