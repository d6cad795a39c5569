/**
 * The stored TODO record and the abstract store the view-models read and
 * insert into. The database is a table whose rows carry an auto-generated
 * integer key; the code never updates or deletes a row, so the table is
 * modelled as the sequence of rows in insertion order.
 */
module Todos {

  /** A stored TODO item: an auto-generated key and a free-text description. */
  datatype Todo = Todo(id: int, description: string)

  /**
   * The table's invariant: every key is positive and keys ascend strictly in
   * insertion order (so no key occurs twice).
   */
  ghost predicate WellFormed(store: seq<Todo>)
  {
    && (forall i :: 0 <= i < |store| ==> store[i].id > 0)
    && (forall i, j :: 0 <= i < j < |store| ==> store[i].id < store[j].id)
  }

  /** The largest key in the table, 0 for an empty table. */
  function MaxId(store: seq<Todo>): (m: int)
    ensures m >= 0
    ensures forall t :: t in store ==> t.id <= m
    ensures m == 0 || exists t :: t in store && t.id == m
  {
    if |store| == 0 then 0
    else
      var rest := MaxId(store[..|store| - 1]);
      var last := store[|store| - 1];
      assert store == store[..|store| - 1] + [last];
      if last.id > rest then last.id else rest
  }

  /**
   * Inserting a new item whose key is left to the database: the row is
   * appended with a key above every key already present (1 on an empty table).
   */
  function Insert(store: seq<Todo>, description: string): (r: seq<Todo>)
    ensures |r| == |store| + 1
    ensures r[..|store|] == store
    ensures r[|store|].description == description
    ensures r[|store|].id > 0
    ensures forall t :: t in store ==> t.id < r[|store|].id
  {
    store + [Todo(MaxId(store) + 1, description)]
  }

  /** Inserting keeps keys positive, unique and ascending. */
  lemma InsertPreservesWellFormed(store: seq<Todo>, description: string)
    requires WellFormed(store)
    ensures WellFormed(Insert(store, description))
  {
    var r := Insert(store, description);
    forall i, j | 0 <= i < j < |r|
      ensures r[i].id < r[j].id
    {
      if j == |store| {
        assert r[i] == store[i];
        assert store[i] in store;
      } else {
        assert r[i] == store[i] && r[j] == store[j];
      }
    }
  }

  /** Inserting adds exactly one record carrying the description and nothing else. */
  lemma InsertAddsExactlyOne(store: seq<Todo>, description: string)
    ensures multiset(Insert(store, description)) == multiset(store) + multiset{Insert(store, description)[|store|]}
    ensures |set t | t in Insert(store, description) && t !in store| == 1
  {
    var r := Insert(store, description);
    var added := r[|store|];
    assert r == store + [added];
    assert added !in store;
    assert (set t | t in r && t !in store) == {added};
  }
}
