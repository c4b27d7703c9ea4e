/**
 * The browser's key-value storage as the app uses it, and the app's load of
 * its list from it. A stored value is abstracted to what `JSON.parse` makes of
 * it: either a list of todos, or something that does not load.
 */
module Storage {
  import opened TodoList

  /** What is stored under a key. `Malformed` stands for every value the load
      rejects: the empty string (falsy) and text `JSON.parse` throws on. */
  datatype Entry = Serialized(todos: seq<Todo>) | Malformed

  /** `localStorage`: a map from keys to stored entries. A call that throws
      (storage disabled, quota exceeded) is the one whose `ok` flag is false;
      the caller catches and logs it, so it only leaves the storage as it was. */
  class LocalStorage {
    var items: map<string, Entry>

    constructor (initial: map<string, Entry>)
      ensures items == initial
    {
      items := initial;
    }

    /** `getItem(key)`: the stored entry, or null (`None`) when the key is absent. */
    function Lookup(key: string): (item: Option<Entry>)
      reads this
      ensures item.None? <==> key !in items
      ensures item.Some? ==> item.value == items[key]
    {
      if key in items then Some(items[key]) else None
    }

    /** `setItem(key, value)`: overwrites that one key, every other key is kept. */
    method SetItem(key: string, value: Entry, ok: bool)
      modifies this
      ensures items == if ok then old(items)[key := value] else old(items)
    {
      if ok {
        items := items[key := value];
      }
    }

    /** `removeItem(key)`: the key becomes absent, every other key is kept. */
    method RemoveItem(key: string, ok: bool)
      modifies this
      ensures items == if ok then old(items) - {key} else old(items)
    {
      if ok {
        items := items - {key};
      }
    }
  }

  /** The `todos` state initialiser given what `getItem` returned: an absent
      key or a value that does not parse gives the empty list, otherwise the
      stored list. */
  function LoadTodos(item: Option<Entry>): (todos: seq<Todo>)
    ensures item.None? ==> todos == []
    ensures item == Some(Malformed) ==> todos == []
    ensures item.Some? && item.value.Serialized? ==> todos == item.value.todos
  {
    match item
    case Some(Serialized(l)) => l
    case _ => []
  }
}
