/**
 The todo records of the todo screen and the pure list operations its handlers
 build new lists with: prepend on add, filter by id on remove, map-with-flip on
 toggle. Ids are strings made by the caller; nothing here makes them unique, so
 every uniqueness fact below carries its own freshness hypothesis.
 */
module Records {

  /** One todo entry, with the four fields in the order the screen creates them. */
  datatype Record = Record(id: string, name: string, age: string, completed: bool)

  /** The record an add creates: not yet completed. */
  function NewRecord(id: string, name: string, age: string): (r: Record)
  {
    Record(id, name, age, false)
  }

  /** The ids of `todo`, in list order. */
  function Ids(todo: seq<Record>): (ids: seq<string>)
    ensures |ids| == |todo|
    ensures forall i :: 0 <= i < |todo| ==> ids[i] == todo[i].id
  {
    if todo == [] then [] else [todo[0].id] + Ids(todo[1..])
  }

  /** No id occurs twice in `todo`. */
  ghost predicate UniqueIds(todo: seq<Record>) {
    var ids := Ids(todo);
    forall i, j :: 0 <= i < j < |ids| ==> ids[i] != ids[j]
  }

  /** Unique ids, stated on the records themselves. */
  lemma UniqueIdsByRecord(todo: seq<Record>)
    ensures UniqueIds(todo) <==> forall i, j :: 0 <= i < j < |todo| ==> todo[i].id != todo[j].id
  {
    var ids := Ids(todo);
    if UniqueIds(todo) {
      forall i, j | 0 <= i < j < |todo| ensures todo[i].id != todo[j].id {
        assert ids[i] == todo[i].id && ids[j] == todo[j].id;
      }
    } else {
      var i, j :| 0 <= i < j < |ids| && ids[i] == ids[j];
      assert todo[i].id == todo[j].id;
    }
  }

  /** No record of `todo` carries `id`. */
  ghost predicate Fresh(id: string, todo: seq<Record>) {
    forall x :: x in todo ==> x.id != id
  }

  /** The list after an add: the new record first, the old list after it. */
  function Added(todo: seq<Record>, id: string, name: string, age: string): (r: seq<Record>)
    ensures |r| == |todo| + 1
    ensures r[0] == NewRecord(id, name, age) && r[1..] == todo
  {
    [NewRecord(id, name, age)] + todo
  }

  /** The list after a remove: the records whose id differs from `id`, in their order. */
  function Removed(todo: seq<Record>, id: string): (r: seq<Record>)
    ensures |r| <= |todo|
    ensures forall x :: x in r <==> x in todo && x.id != id
  {
    if todo == [] then []
    else if todo[0].id != id then [todo[0]] + Removed(todo[1..], id)
    else Removed(todo[1..], id)
  }

  /** The list after a toggle: `completed` negated on the records carrying `id`. */
  function Toggled(todo: seq<Record>, id: string): (r: seq<Record>)
    ensures |r| == |todo|
    ensures forall i :: 0 <= i < |todo| ==>
      && r[i].id == todo[i].id && r[i].name == todo[i].name && r[i].age == todo[i].age
      && (r[i].completed <==> (todo[i].completed != (todo[i].id == id)))
  {
    if todo == [] then []
    else
      var head := if todo[0].id == id then todo[0].(completed := !todo[0].completed) else todo[0];
      [head] + Toggled(todo[1..], id)
  }

  // ---------------------------------------------------------------------------
  // Add

  /** A list with `x` in front has unique ids exactly when its tail does and avoids `x.id`. */
  lemma ConsUnique(x: Record, s: seq<Record>)
    ensures UniqueIds([x] + s) <==> Fresh(x.id, s) && UniqueIds(s)
  {
    var r := [x] + s;
    UniqueIdsByRecord(r);
    UniqueIdsByRecord(s);
    if UniqueIds(r) {
      forall y | y in s ensures y.id != x.id {
        var k :| 0 <= k < |s| && s[k] == y;
        assert r[0] == x && r[k + 1] == y;
      }
      forall i, j | 0 <= i < j < |s| ensures s[i].id != s[j].id {
        assert r[i + 1] == s[i] && r[j + 1] == s[j];
      }
    }
    if Fresh(x.id, s) && UniqueIds(s) {
      forall i, j | 0 <= i < j < |r| ensures r[i].id != r[j].id {
        if i == 0 {
          assert r[j] == s[j - 1] && r[j] in s;
        } else {
          assert r[i] == s[i - 1] && r[j] == s[j - 1];
        }
      }
    }
  }

  /** Adding keeps the ids unique exactly when the new id is fresh. */
  lemma AddedUniqueIff(todo: seq<Record>, id: string, name: string, age: string)
    ensures UniqueIds(Added(todo, id, name, age)) <==> Fresh(id, todo) && UniqueIds(todo)
  {
    ConsUnique(NewRecord(id, name, age), todo);
  }

  /** Removing the id of a freshly added record undoes the add. */
  lemma {:induction false} RemovedUndoesAdded(todo: seq<Record>, id: string, name: string, age: string)
    requires Fresh(id, todo)
    ensures Removed(Added(todo, id, name, age), id) == todo
  {
    var r := Added(todo, id, name, age);
    assert r[1..] == todo;
    RemovedAbsent(todo, id);
  }

  /** Two adds place the later record in front of the earlier one. */
  lemma AddedNewestFirst(todo: seq<Record>, id1: string, name1: string, age1: string,
                         id2: string, name2: string, age2: string)
    ensures Added(Added(todo, id1, name1, age1), id2, name2, age2)
            == [NewRecord(id2, name2, age2), NewRecord(id1, name1, age1)] + todo
  {
  }

  // ---------------------------------------------------------------------------
  // Remove

  /** Removing an id no record carries leaves the list unchanged. */
  lemma {:induction false} RemovedAbsent(todo: seq<Record>, id: string)
    requires Fresh(id, todo)
    ensures Removed(todo, id) == todo
  {
    if todo != [] {
      assert todo[0] in todo;
      assert forall x :: x in todo[1..] ==> x in todo;
      RemovedAbsent(todo[1..], id);
      assert todo == [todo[0]] + todo[1..];
    }
  }

  /** Removal works segment by segment, so the kept records stay in their order. */
  lemma {:induction false} RemovedConcat(a: seq<Record>, b: seq<Record>, id: string)
    ensures Removed(a + b, id) == Removed(a, id) + Removed(b, id)
  {
    if a != [] {
      assert (a + b)[1..] == a[1..] + b;
      RemovedConcat(a[1..], b, id);
    } else {
      assert a + b == b;
    }
  }

  /** Each record keeps its multiplicity unless it carries the removed id. */
  lemma {:induction false} RemovedCounts(todo: seq<Record>, id: string, x: Record)
    ensures multiset(Removed(todo, id))[x] == if x.id == id then 0 else multiset(todo)[x]
  {
    if todo != [] {
      RemovedCounts(todo[1..], id, x);
      assert todo == [todo[0]] + todo[1..];
    }
  }

  /** With unique ids, the id of the record at `k` occurs neither before nor after it. */
  lemma UniqueAround(todo: seq<Record>, k: nat)
    requires UniqueIds(todo) && k < |todo|
    ensures Fresh(todo[k].id, todo[..k]) && Fresh(todo[k].id, todo[k + 1..])
  {
    UniqueIdsByRecord(todo);
    forall x | x in todo[..k] ensures x.id != todo[k].id {
      var i :| 0 <= i < k && todo[..k][i] == x;
      assert x == todo[i];
    }
    forall x | x in todo[k + 1..] ensures x.id != todo[k].id {
      var i :| 0 <= i < |todo| - k - 1 && todo[k + 1..][i] == x;
      assert x == todo[k + 1 + i];
    }
  }

  /** With unique ids, removing the id of the record at `k` deletes exactly that record. */
  lemma {:induction false} RemovedUniqueAt(todo: seq<Record>, k: nat)
    requires UniqueIds(todo) && k < |todo|
    ensures Removed(todo, todo[k].id) == todo[..k] + todo[k + 1..]
  {
    var id, before, after := todo[k].id, todo[..k], todo[k + 1..];
    UniqueAround(todo, k);
    calc {
      Removed(todo, id);
      { assert todo == before + ([todo[k]] + after); }
      Removed(before + ([todo[k]] + after), id);
      { RemovedConcat(before, [todo[k]] + after, id);
        RemovedConcat([todo[k]], after, id); }
      Removed(before, id) + (Removed([todo[k]], id) + Removed(after, id));
      { RemovedAbsent(before, id); RemovedAbsent(after, id);
        assert Removed([todo[k]], id) == []; }
      before + after;
    }
  }

  /** Removing keeps the ids unique. */
  lemma {:induction false} RemovedKeepsUnique(todo: seq<Record>, id: string)
    requires UniqueIds(todo)
    ensures UniqueIds(Removed(todo, id))
  {
    if todo != [] {
      var tail := todo[1..];
      assert todo == [todo[0]] + tail;
      ConsUnique(todo[0], tail);
      RemovedKeepsUnique(tail, id);
      if todo[0].id != id {
        ConsUnique(todo[0], Removed(tail, id));
      }
    }
  }

  // ---------------------------------------------------------------------------
  // Toggle

  /** Toggling the same id twice restores the list. */
  lemma {:induction false} ToggledTwice(todo: seq<Record>, id: string)
    ensures Toggled(Toggled(todo, id), id) == todo
  {
    if todo != [] {
      ToggledTwice(todo[1..], id);
      assert Toggled(todo, id)[1..] == Toggled(todo[1..], id);
    }
  }

  /** Toggling an id no record carries leaves the list unchanged. */
  lemma ToggledAbsent(todo: seq<Record>, id: string)
    requires Fresh(id, todo)
    ensures Toggled(todo, id) == todo
  {
    forall i | 0 <= i < |todo| ensures Toggled(todo, id)[i] == todo[i] {
      assert todo[i] in todo;
    }
  }

  /** Toggling keeps the ids, hence their uniqueness. */
  lemma ToggledKeepsIds(todo: seq<Record>, id: string)
    ensures Ids(Toggled(todo, id)) == Ids(todo)
    ensures UniqueIds(Toggled(todo, id)) <==> UniqueIds(todo)
  {
    var r := Toggled(todo, id);
    assert forall i :: 0 <= i < |todo| ==> Ids(r)[i] == Ids(todo)[i];
    assert forall i :: 0 <= i < |todo| ==> r[i].id == todo[i].id;
  }

  /** When no other record shares the id of the record at `k`, toggling it flips that record alone. */
  lemma ToggledOnlyAt(todo: seq<Record>, k: nat)
    requires k < |todo|
    requires forall i :: 0 <= i < |todo| && i != k ==> todo[i].id != todo[k].id
    ensures Toggled(todo, todo[k].id) == todo[k := todo[k].(completed := !todo[k].completed)]
  {
    var want := todo[k := todo[k].(completed := !todo[k].completed)];
    var r := Toggled(todo, todo[k].id);
    forall i | 0 <= i < |todo| ensures r[i] == want[i] {
    }
  }

  /** With unique ids, toggling the id of the record at `k` flips that record alone. */
  lemma ToggledUniqueAt(todo: seq<Record>, k: nat)
    requires UniqueIds(todo) && k < |todo|
    ensures Toggled(todo, todo[k].id) == todo[k := todo[k].(completed := !todo[k].completed)]
  {
    UniqueIdsByRecord(todo);
    forall i | 0 <= i < |todo| && i != k ensures todo[i].id != todo[k].id {
      if i < k { assert todo[i].id != todo[k].id; } else { assert todo[k].id != todo[i].id; }
    }
    ToggledOnlyAt(todo, k);
  }

  /** Deleting a record after toggling it is the same as deleting it outright. */
  lemma {:induction false} RemovedAfterToggled(todo: seq<Record>, id: string)
    ensures Removed(Toggled(todo, id), id) == Removed(todo, id)
  {
    if todo != [] {
      RemovedAfterToggled(todo[1..], id);
      assert Toggled(todo, id)[1..] == Toggled(todo[1..], id);
    }
  }
}
