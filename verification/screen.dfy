/**
 The todo screen: its component state (the list, the two draft inputs and the
 single-slot alert) and the device storage slot under the key "@todos" that
 the list is written to and read back from. Each handler runs to completion
 before the next one starts, and a write to the slot takes effect at once.
 */
module Screen {
  import opened Records

  /** What the storage slot "@todos" yields when it is read. */
  datatype Slot =
    | Empty                       // nothing stored yet (a falsy item)
    | Unreadable                  // reading or parsing the item fails
    | Holds(list: seq<Record>)    // a list written by an earlier save

  const NameMissing: string := "⚠️ Please Enter a Name"
  const AgeMissing: string := "⚠️ Please Enter an Age"
  const TodoAdded: string := "✅ Todo Added Successfully!"
  const TodoDeleted: string := "🗑️ Todo Deleted!"

  class TodoScreen {
    var todo: seq<Record>
    var name: string
    var age: string
    var alertVisible: bool
    var alertMsg: string
    /** The device storage slot; it outlives the screen. */
    var storage: Slot

    /** The initial component state, with whatever the device already stores. */
    constructor (stored: Slot)
      ensures todo == [] && name == "" && age == ""
      ensures !alertVisible && alertMsg == ""
      ensures storage == stored
    {
      todo, name, age := [], "", "";
      alertVisible, alertMsg := false, "";
      storage := stored;
    }

    /** Replaces the list by the stored one when there is one; otherwise keeps it. */
    method LoadTodos()
      modifies this`todo
      ensures todo == if storage.Holds? then storage.list else old(todo)
    {
      match storage
      case Holds(list) => todo := list;
      case Empty =>
      case Unreadable =>
    }

    /** Overwrites the storage slot with the whole of `todos`. */
    method SaveTodos(todos: seq<Record>)
      modifies this`storage
      ensures storage == Holds(todos)
    {
      storage := Holds(todos);
    }

    method ShowAlert(msg: string)
      modifies this`alertMsg, this`alertVisible
      ensures alertMsg == msg && alertVisible
    {
      alertMsg := msg;
      alertVisible := true;
    }

    /** Closing the alert hides it and keeps its message. */
    method DismissAlert()
      modifies this`alertVisible
      ensures !alertVisible
    {
      alertVisible := false;
    }

    method SetName(text: string)
      modifies this`name
      ensures name == text
    {
      name := text;
    }

    method SetAge(text: string)
      modifies this`age
      ensures age == text
    {
      age := text;
    }

    /**
     Adds a todo from the drafts under the caller's `id`. The name is checked
     first, then the age; a failed check only shows its alert.
     */
    method HandleAdd(id: string)
      modifies this`todo, this`storage, this`name, this`age, this`alertMsg, this`alertVisible
      ensures old(name) == "" ==>
        && todo == old(todo) && storage == old(storage) && name == old(name) && age == old(age)
        && alertMsg == NameMissing && alertVisible
      ensures old(name) != "" && old(age) == "" ==>
        && todo == old(todo) && storage == old(storage) && name == old(name) && age == old(age)
        && alertMsg == AgeMissing && alertVisible
      ensures old(name) != "" && old(age) != "" ==>
        && todo == [Record(id, old(name), old(age), false)] + old(todo)
        && storage == Holds(todo)
        && name == "" && age == ""
        && alertMsg == TodoAdded && alertVisible
      ensures UniqueIds(old(todo)) && Fresh(id, old(todo)) ==> UniqueIds(todo)
    {
      if name == "" {
        ShowAlert(NameMissing);
        return;
      }
      if age == "" {
        ShowAlert(AgeMissing);
        return;
      }
      AddedUniqueIff(todo, id, name, age);
      var updated := Added(todo, id, name, age);
      todo := updated;
      SaveTodos(updated);
      name := "";
      age := "";
      ShowAlert(TodoAdded);
    }

    /** Deletes the records carrying `id`, if any, and confirms the delete. */
    method HandleRemove(id: string)
      modifies this`todo, this`storage, this`alertMsg, this`alertVisible
      ensures todo == Removed(old(todo), id)
      ensures storage == Holds(todo)
      ensures alertMsg == TodoDeleted && alertVisible
      ensures UniqueIds(old(todo)) ==> UniqueIds(todo)
    {
      if UniqueIds(todo) {
        RemovedKeepsUnique(todo, id);
      }
      var updated := Removed(todo, id);
      todo := updated;
      SaveTodos(updated);
      ShowAlert(TodoDeleted);
    }

    /** Flips `completed` on the records carrying `id`; no alert. */
    method ToggleComplete(id: string)
      modifies this`todo, this`storage
      ensures todo == Toggled(old(todo), id)
      ensures storage == Holds(todo)
      ensures UniqueIds(todo) <==> UniqueIds(old(todo))
    {
      ToggledKeepsIds(todo, id);
      var updated := Toggled(todo, id);
      todo := updated;
      SaveTodos(updated);
    }
  }

  /** Mounting the screen: the initial state, then the load the mount effect runs. */
  method Mount(stored: Slot) returns (s: TodoScreen)
    ensures fresh(s)
    ensures s.todo == (if stored.Holds? then stored.list else [])
    ensures s.storage == stored && s.name == "" && s.age == ""
    ensures !s.alertVisible && s.alertMsg == ""
  {
    s := new TodoScreen(stored);
    s.LoadTodos();
  }

  /**
   A session on top of what the device stores: two successful adds, then a
   relaunch. The later todo is shown first, and the relaunched screen loads
   the same list.
   */
  method AddTwiceThenRelaunch(stored: Slot, id1: string, name1: string, age1: string,
                              id2: string, name2: string, age2: string)
    returns (shown: seq<Record>, relaunched: seq<Record>)
    requires name1 != "" && age1 != "" && name2 != "" && age2 != ""
    ensures shown == [Record(id2, name2, age2, false), Record(id1, name1, age1, false)]
                     + (if stored.Holds? then stored.list else [])
    ensures relaunched == shown
  {
    var s := Mount(stored);
    s.SetName(name1);
    s.SetAge(age1);
    s.HandleAdd(id1);
    s.SetName(name2);
    s.SetAge(age2);
    s.HandleAdd(id2);
    shown := s.todo;
    var again := Mount(s.storage);
    relaunched := again.todo;
  }
}
