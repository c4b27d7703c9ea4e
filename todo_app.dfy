/**
 * The `TodoApp` component's state and handlers. The four pieces of component
 * state are fields; each handler is one atomic step, and a handler that sets
 * `todos` is followed at once by the persistence effect that writes the whole
 * list under the app's one storage key.
 */
module App {
  import opened JsString
  import opened TodoList
  import opened Storage

  /** The one key the app reads, writes and removes (`LOCAL_STORAGE_KEY`). */
  const LocalStorageKey: string := "todo-app-key"

  /** The storage after the persistence effect wrote `todos`: only the app's
      key changes, and nothing changes when the write throws. */
  function AfterWrite(items: map<string, Entry>, todos: seq<Todo>, writeOk: bool): (after: map<string, Entry>)
    ensures writeOk ==> LocalStorageKey in after && after[LocalStorageKey] == Serialized(todos)
    ensures !writeOk ==> after == items
    ensures forall k :: k != LocalStorageKey ==> (k in after <==> k in items)
    ensures forall k :: k != LocalStorageKey && k in items ==> after[k] == items[k]
  {
    if writeOk then items[LocalStorageKey := Serialized(todos)] else items
  }

  class TodoApp {
    var todos: seq<Todo>
    var newTodo: string
    var editingId: Option<Id>
    var editText: string
    const storage: LocalStorage

    /** The app's key holds exactly the in-memory list, so a fresh load would
        give that list back. */
    ghost predicate Persisted()
      reads this, storage
      ensures Persisted() ==> LoadTodos(storage.Lookup(LocalStorageKey)) == todos
    {
      storage.Lookup(LocalStorageKey) == Some(Serialized(todos))
    }

    /** Mounting the component: `todos` starts from what is stored under the
        key (empty when `getItem` throws), the other state starts empty, and
        the effect then runs once and writes the loaded list back. */
    constructor (storage: LocalStorage, readOk: bool, writeOk: bool)
      modifies storage
      ensures this.storage == storage
      ensures todos == if readOk then LoadTodos(old(storage.Lookup(LocalStorageKey))) else []
      ensures newTodo == "" && editingId == None && editText == ""
      ensures storage.items == AfterWrite(old(storage.items), todos, writeOk)
      ensures writeOk ==> Persisted()
    {
      var item := storage.Lookup(LocalStorageKey);
      this.storage := storage;
      todos := if readOk then LoadTodos(item) else [];
      newTodo, editingId, editText := "", None, "";
      new;
      PersistTodos(writeOk);
    }

    /** The effect on `[todos]`: writes the whole list under the app's key. */
    method PersistTodos(writeOk: bool)
      modifies storage
      ensures storage.items == AfterWrite(old(storage.items), todos, writeOk)
      ensures writeOk ==> Persisted()
    {
      storage.SetItem(LocalStorageKey, Serialized(todos), writeOk);
    }

    /** The `onChange` binding of the new-todo input. */
    method SetNewTodo(text: string)
      modifies this`newTodo
      ensures newTodo == text
    {
      newTodo := text;
    }

    /** The `onChange` binding of the edit input. */
    method SetEditText(text: string)
      modifies this`editText
      ensures editText == text
    {
      editText := text;
    }

    /** `addTodo`: blank input changes nothing; otherwise the input, untrimmed,
        becomes a new open item at the end of the list, the input is cleared
        and the list is written to storage. */
    method AddTodo(id: Id, createdAt: string, writeOk: bool)
      modifies this`todos, this`newTodo, storage
      ensures IsBlank(old(newTodo)) ==>
        todos == old(todos) && newTodo == old(newTodo) && storage.items == old(storage.items)
      ensures !IsBlank(old(newTodo)) ==>
        todos == old(todos) + [NewTodo(id, old(newTodo), createdAt)] && newTodo == ""
        && storage.items == AfterWrite(old(storage.items), todos, writeOk)
      ensures writeOk && (old(Persisted()) || !IsBlank(old(newTodo))) ==> Persisted()
    {
      if IsBlank(newTodo) {
        return;
      }
      var todo := NewTodo(id, newTodo, createdAt);
      todos := todos + [todo];
      newTodo := "";
      PersistTodos(writeOk);
    }

    /** `toggleComplete(id)`: flips every item with that id, then writes. */
    method ToggleComplete(id: Id, stamp: string, writeOk: bool)
      modifies this`todos, storage
      ensures todos == ToggleById(old(todos), id, stamp)
      ensures storage.items == AfterWrite(old(storage.items), todos, writeOk)
      ensures writeOk ==> Persisted()
    {
      todos := ToggleById(todos, id, stamp);
      PersistTodos(writeOk);
    }

    /** `startEdit(todo)`: opens the edit on that item with its text as the
        draft, replacing any edit already open. */
    method StartEdit(todo: Todo)
      modifies this`editingId, this`editText
      ensures editingId == Some(todo.id) && editText == todo.text
    {
      editingId := Some(todo.id);
      editText := todo.text;
    }

    /** `saveEdit`: a blank draft changes nothing and the edit stays open;
        otherwise the draft becomes the text of every item with the edited
        id, the edit closes (the draft itself is kept) and the list is written. */
    method SaveEdit(stamp: string, writeOk: bool)
      modifies this`todos, this`editingId, storage
      ensures IsBlank(editText) ==>
        todos == old(todos) && editingId == old(editingId) && storage.items == old(storage.items)
      ensures !IsBlank(editText) ==>
        todos == ReplaceText(old(todos), old(editingId), editText, stamp) && editingId == None
        && storage.items == AfterWrite(old(storage.items), todos, writeOk)
      ensures writeOk && (old(Persisted()) || !IsBlank(editText)) ==> Persisted()
    {
      if IsBlank(editText) {
        return;
      }
      todos := ReplaceText(todos, editingId, editText, stamp);
      editingId := None;
      PersistTodos(writeOk);
    }

    /** The cancel button: closes the edit; the draft and the list are kept. */
    method CancelEdit()
      modifies this`editingId
      ensures editingId == None
    {
      editingId := None;
    }

    /** `deleteTodo(id)`: removes every item with that id, then writes. The
        edit state is not touched, even when the edited item is removed. */
    method DeleteTodo(id: Id, writeOk: bool)
      modifies this`todos, storage
      ensures todos == Without(old(todos), id)
      ensures storage.items == AfterWrite(old(storage.items), todos, writeOk)
      ensures writeOk ==> Persisted()
    {
      todos := Without(todos, id);
      PersistTodos(writeOk);
    }

    /** `resetLocalStorage`: removes the app's key, so that a fresh load gives
        the empty list; the in-memory list is not touched. */
    method ResetLocalStorage(removeOk: bool)
      modifies storage
      ensures storage.items == if removeOk then old(storage.items) - {LocalStorageKey} else old(storage.items)
      ensures removeOk ==> LoadTodos(storage.Lookup(LocalStorageKey)) == []
      ensures unchanged(this)
    {
      storage.RemoveItem(LocalStorageKey, removeOk);
    }
  }

  /** A session from an empty storage: add, toggle, edit and delete one item,
      reading the counters after each step. */
  method Session()
  {
    var storage := new LocalStorage(map[]);
    var app := new TodoApp(storage, true, true);
    assert app.todos == [];

    app.SetNewTodo("Buy milk");
    assert !IsWhitespace("Buy milk"[0]);
    app.AddTodo(1, "2024-01-01T00:00:00.000Z", true);
    var milk := NewTodo(1, "Buy milk", "2024-01-01T00:00:00.000Z");
    assert app.todos == [milk];
    AppendStats([], milk);
    assert ComputeStats(app.todos) == Stats(1, 0, 1);

    app.ToggleComplete(1, "Mon Jan 01 2024", true);
    var done := app.todos[0];
    assert app.todos == [done] && done.completed;
    assert Filter(app.todos, IsDone) == [done];
    assert ComputeStats(app.todos) == Stats(1, 1, 0);

    EditThenDelete(app, done);
  }

  /** The second half of the session: edit the one (completed) item, then
      delete it. */
  method EditThenDelete(app: TodoApp, t: Todo)
    requires app.todos == [t] && t.id == 1 && t.completed
    modifies app, app.storage
  {
    app.StartEdit(t);
    app.SetEditText("Buy oat milk");
    assert !IsWhitespace("Buy oat milk"[0]);
    app.SaveEdit("Mon Jan 01 2024", true);
    ReplaceTextKeepsStats([t], Some(1), "Buy oat milk", "Mon Jan 01 2024");
    assert Filter([t], IsDone) == [t];
    assert ComputeStats(app.todos) == Stats(1, 1, 0);
    var edited := app.todos[0];
    assert app.todos == [edited];
    assert edited.text == "Buy oat milk" && app.editingId == None;

    app.DeleteTodo(1, true);
    assert edited !in app.todos;
    assert app.todos == [];
    assert ComputeStats(app.todos) == Stats(0, 0, 0);
    assert app.Persisted();
  }
}
