/**
 * The older view-model: no validation, no error path, no debounce, and a
 * case-sensitive search over the query as typed. `addTodo` raises the
 * in-progress flag at once and launches work that, after its delay, inserts
 * the pending text as it is then; `RunLaunched` is that launched body.
 */
module LegacyViewModel {
  import opened Todos
  import opened Search

  class TodoViewModel {
    /** The pending new-item text (`_todo`). */
    var todo: string
    /** The search text (`_searchQuery`), used by the list without delay. */
    var searchQuery: string
    /** The in-progress flag (`_addTodoInProgress`). */
    var addTodoInProgress: bool
    /** The rows of the database, in insertion order. */
    var store: seq<Todo>
    /** Coroutines launched by `addTodo` that have not run yet. */
    ghost var launched: nat
    /** How many times a completion callback has been called. */
    var completedCalls: nat
    /** How many times `addTodo` has been called. */
    ghost var submitted: nat

    /**
     * The invariant: the table is well formed, every submission is either
     * queued or has called its callback exactly once, and the in-progress
     * flag is up only while some submission is queued.
     */
    ghost predicate Valid()
      reads this
    {
      && WellFormed(store)
      && completedCalls + launched == submitted
      && (addTodoInProgress ==> launched > 0)
    }

    /** The visible list (`todoList`), derived from the query as typed, matching case. */
    function TodoList(): (r: seq<Todo>)
      reads this
      ensures |searchQuery| == 0 ==> r == store
      ensures IsSubsequence(r, store)
      ensures forall t :: t in r <==> t in store && Contains(t.description, searchQuery, false)
      ensures forall t :: multiset(r)[t] == if Contains(t.description, searchQuery, false) then multiset(store)[t] else 0
    {
      VisibleListSpec(store, searchQuery, false);
      VisibleList(store, searchQuery, false)
    }

    /** A fresh view-model over the given table. */
    constructor(initialStore: seq<Todo>)
      requires WellFormed(initialStore)
      ensures Valid()
      ensures todo == "" && searchQuery == "" && !addTodoInProgress
      ensures store == initialStore
      ensures launched == 0 && completedCalls == 0 && submitted == 0
    {
      todo := "";
      searchQuery := "";
      addTodoInProgress := false;
      store := initialStore;
      launched := 0;
      completedCalls := 0;
      submitted := 0;
    }

    /** `onTodoValueChange`: replaces the pending text and nothing else. */
    method OnTodoValueChange(text: string)
      requires Valid()
      modifies this`todo
      ensures Valid()
      ensures todo == text
    {
      todo := text;
    }

    /** `setSearchQuery`: the query and, with it, the visible list change at once. */
    method SetSearchQuery(query: string)
      requires Valid()
      modifies this`searchQuery
      ensures Valid()
      ensures searchQuery == query
      ensures TodoList() == VisibleList(store, query, false)
    {
      searchQuery := query;
    }

    /** `addTodo`: raises the in-progress flag at once and launches the insert, whatever the text. */
    method AddTodo()
      requires Valid()
      modifies this`addTodoInProgress, this`launched, this`submitted
      ensures Valid()
      ensures addTodoInProgress
      ensures launched == old(launched) + 1
      ensures submitted == old(submitted) + 1
    {
      addTodoInProgress := true;
      launched := launched + 1;
      submitted := submitted + 1;
    }

    /**
     * A launched submission runs after its delay: the pending text as it is
     * now is inserted (even when empty), the flag is lowered and the callback
     * is called once.
     */
    method RunLaunched()
      requires Valid()
      requires launched > 0
      modifies this`launched, this`store, this`addTodoInProgress, this`completedCalls
      ensures Valid()
      ensures launched == old(launched) - 1
      ensures store == Insert(old(store), todo)
      ensures !addTodoInProgress
      ensures completedCalls == old(completedCalls) + 1
    {
      launched := launched - 1;
      InsertPreservesWellFormed(store, todo);
      store := Insert(store, todo);
      addTodoInProgress := false;
      completedCalls := completedCalls + 1;
    }
  }

  /** What the screen observes around a submission. */
  datatype Observed = Observed(
    store: seq<Todo>,
    inProgressBeforeRun: bool,
    addTodoInProgress: bool,
    completedCalls: nat)

  /**
   * A fresh view-model over `initialStore` receives `text` and is submitted:
   * the flag is up until the launched work runs, then exactly one item with
   * that text is in the table (empty text included), the flag is down and the
   * callback has been called once.
   */
  method SubmitOnFreshViewModel(initialStore: seq<Todo>, text: string) returns (o: Observed)
    requires WellFormed(initialStore)
    ensures o.inProgressBeforeRun
    ensures o.store == Insert(initialStore, text)
    ensures !o.addTodoInProgress
    ensures o.completedCalls == 1
  {
    var vm := new TodoViewModel(initialStore);
    vm.OnTodoValueChange(text);
    assert vm.store == initialStore && vm.todo == text;
    vm.AddTodo();
    assert vm.store == initialStore && vm.todo == text && vm.launched == 1;
    var before := vm.addTodoInProgress;
    vm.RunLaunched();
    o := Observed(vm.store, before, vm.addTodoInProgress, vm.completedCalls);
  }

  /** On a fresh view-model the list follows the query as soon as it is set. */
  method SearchOnFreshViewModel(initialStore: seq<Todo>, query: string) returns (visible: seq<Todo>)
    requires WellFormed(initialStore)
    ensures IsSubsequence(visible, initialStore)
    ensures forall t :: t in visible <==> t in initialStore && Contains(t.description, query, false)
  {
    var vm := new TodoViewModel(initialStore);
    vm.SetSearchQuery(query);
    visible := vm.TodoList();
  }

  /** Matching is case-sensitive here: "test" does not find "Test1". */
  lemma MatchesCaseExample()
    ensures !Contains("Test1", "test", false)
    ensures VisibleList([Todo(0, "Test1"), Todo(0, "Another Test"), Todo(0, "Sample")], "test", false) == []
  {
    var t1, t2, t3 := "Test1", "Another Test", "Sample";
    forall j | 0 <= j ensures !MatchesAt(t1, j, "test", false) {
      if j <= 1 {
        assert !CharMatches(t1[j + 0], "test"[0], false);
      }
    }
    forall j | 0 <= j ensures !MatchesAt(t2, j, "test", false) {
      if j <= 8 {
        assert !CharMatches(t2[j + 0], "test"[0], false) || !CharMatches(t2[j + 1], "test"[1], false);
      }
    }
    forall j | 0 <= j ensures !MatchesAt(t3, j, "test", false) {
      if j <= 2 {
        assert !CharMatches(t3[j + 1], "test"[1], false);
      }
    }
    assert !Contains(t1, "test", false) && !Contains(t2, "test", false) && !Contains(t3, "test", false);
  }
}
