/**
 * The current list/add-entry view-model: pending text with validation, a
 * debounced case-insensitive search, and a submit whose launched coroutine
 * either rejects the reserved input or inserts one item after a delay.
 *
 * Coroutine scheduling is made explicit. `AddTodo` is `addTodo` up to its
 * `launch`. The launched body follows in two steps, split at its
 * `delay(3000)` suspension point: `RunLaunched` (the reserved-input check and
 * raising the in-progress flag) and `ResumeAfterDelay` (the insert, lowering
 * the flag and the completion callback). The debounce becomes the step
 * `SettleDebounce`, which the quiet period triggers. `RunLaunched` may follow
 * `AddTodo` at once (the main-thread dispatcher runs the launched body
 * immediately) or later (a queued dispatcher defers it).
 */
module ViewModel {
  import opened Todos
  import opened Search

  /** The conventional optional value, used for the one-shot error message. */
  datatype Option<T> = None | Some(value: T)

  /** The one-shot message shown when a submission fails. */
  const FailedToAddTodo: string := "Failed to add TODO"

  /** The input that the submission treats as a failure, compared ignoring case. */
  const ErrorSentinel: string := "Error"

  class TodoViewModel {
    /** The pending new-item text (`_todo`). */
    var todo: string
    /** The search text as typed (`_searchQuery`). */
    var searchQuery: string
    /** The search text once the debounce has settled (`debouncedSearchQuery`). */
    var debouncedQuery: string
    /** The one-shot submission error (`_errorEvent`). */
    var errorEvent: Option<string>
    /** The validation-error flag (`_isTodoError`). */
    var isTodoError: bool
    /** The in-progress flag (`_addTodoInProgress`). */
    var addTodoInProgress: bool
    /** The rows of the database, in insertion order. */
    var store: seq<Todo>
    /** Coroutines launched by `addTodo` that have not started yet. */
    ghost var launched: nat
    /** Coroutines suspended in their delay, before the insert. */
    ghost var suspended: nat
    /** How many times a completion callback has been called. */
    var completedCalls: nat
    /** How many submissions passed validation and launched work. */
    ghost var submitted: nat

    /**
     * The invariant: the table is well formed, every launched submission is
     * either still queued, suspended, or has called its callback exactly once,
     * and the in-progress flag is up only while some insert is pending.
     */
    ghost predicate Valid()
      reads this
    {
      && WellFormed(store)
      && completedCalls + launched + suspended == submitted
      && (addTodoInProgress ==> suspended > 0)
    }

    /** The visible list (`todoList`), derived from the debounced query. */
    function TodoList(): (r: seq<Todo>)
      reads this
      ensures |debouncedQuery| == 0 ==> r == store
      ensures IsSubsequence(r, store)
      ensures forall t :: t in r <==> t in store && Contains(t.description, debouncedQuery, true)
      ensures forall t :: multiset(r)[t] == if Contains(t.description, debouncedQuery, true) then multiset(store)[t] else 0
    {
      VisibleListSpec(store, debouncedQuery, true);
      VisibleList(store, debouncedQuery, true)
    }

    /** A fresh view-model over the given table. */
    constructor(initialStore: seq<Todo>)
      requires WellFormed(initialStore)
      ensures Valid()
      ensures todo == "" && searchQuery == "" && debouncedQuery == ""
      ensures errorEvent == None && !isTodoError && !addTodoInProgress
      ensures store == initialStore
      ensures launched == 0 && suspended == 0 && completedCalls == 0 && submitted == 0
    {
      todo := "";
      searchQuery := "";
      debouncedQuery := "";
      errorEvent := None;
      isTodoError := false;
      addTodoInProgress := false;
      store := initialStore;
      launched := 0;
      suspended := 0;
      completedCalls := 0;
      submitted := 0;
    }

    /** `onTodoValueChange`: replaces the pending text and nothing else. */
    method OnTodoValueChange(text: string)
      requires Valid()
      modifies this`todo
      ensures Valid()
      ensures todo == text
    {
      todo := text;
    }

    /** `clearErrorEvent`: the error message is gone, whatever it was. */
    method ClearErrorEvent()
      requires Valid()
      modifies this`errorEvent
      ensures Valid()
      ensures errorEvent == None
    {
      errorEvent := None;
    }

    /** `setSearchQuery`: the typed query changes at once; the visible list does not. */
    method SetSearchQuery(query: string)
      requires Valid()
      modifies this`searchQuery
      ensures Valid()
      ensures searchQuery == query
      ensures TodoList() == old(TodoList())
    {
      searchQuery := query;
    }

    /** The debounce quiet period elapses: the last typed query becomes the one the list uses. */
    method SettleDebounce()
      requires Valid()
      modifies this`debouncedQuery
      ensures Valid()
      ensures debouncedQuery == searchQuery
      ensures TodoList() == VisibleList(store, searchQuery, true)
    {
      debouncedQuery := searchQuery;
    }

    /** `validationSuccess`: the pending text is non-empty; the error flag records the opposite. */
    method ValidationSuccess() returns (ok: bool)
      requires Valid()
      modifies this`isTodoError
      ensures Valid()
      ensures ok <==> |todo| > 0
      ensures isTodoError == !ok
    {
      var todoIsNotEmpty := |todo| > 0;
      isTodoError := !todoIsNotEmpty;
      ok := todoIsNotEmpty;
    }

    /**
     * `addTodo` up to its `launch`: validates and, when the text is
     * non-empty, launches the submission. This step inserts nothing and
     * changes no flag but the validation flag; the launched body is
     * `RunLaunched`, which may run at once or later.
     */
    method AddTodo()
      requires Valid()
      modifies this`isTodoError, this`launched, this`submitted
      ensures Valid()
      ensures isTodoError <==> |todo| == 0
      ensures launched == old(launched) + (if |todo| == 0 then 0 else 1)
      ensures submitted == old(submitted) + (if |todo| == 0 then 0 else 1)
    {
      var ok := ValidationSuccess();
      if ok {
        launched := launched + 1;
        submitted := submitted + 1;
      }
    }

    /**
     * A launched submission starts. The reserved input throws before the
     * flag is raised: the handler lowers the flag, sets the error message and
     * calls the callback. Any other text raises the flag and suspends in the
     * delay.
     */
    method RunLaunched()
      requires Valid()
      requires launched > 0
      modifies this`launched, this`suspended, this`addTodoInProgress, this`errorEvent, this`completedCalls
      ensures Valid()
      ensures launched == old(launched) - 1
      ensures EqualsIgnoreCase(todo, ErrorSentinel) ==>
                && !addTodoInProgress
                && errorEvent == Some(FailedToAddTodo)
                && completedCalls == old(completedCalls) + 1
                && suspended == old(suspended)
      ensures !EqualsIgnoreCase(todo, ErrorSentinel) ==>
                && addTodoInProgress
                && errorEvent == old(errorEvent)
                && completedCalls == old(completedCalls)
                && suspended == old(suspended) + 1
    {
      launched := launched - 1;
      if EqualsIgnoreCase(todo, ErrorSentinel) {
        addTodoInProgress := false;
        errorEvent := Some(FailedToAddTodo);
        completedCalls := completedCalls + 1;
      } else {
        addTodoInProgress := true;
        suspended := suspended + 1;
      }
    }

    /**
     * A suspended submission resumes after its delay and inserts the pending
     * text as it is now. `insertFails` stands for any exception the handler
     * catches here: the database throwing, or the cancellation exception that
     * the delay or the suspending insert throws when the view-model's scope is
     * cancelled. The handler then sets the error message instead of
     * inserting. Either way the flag is lowered and the callback is called once.
     */
    method ResumeAfterDelay(insertFails: bool)
      requires Valid()
      requires suspended > 0
      modifies this`suspended, this`store, this`addTodoInProgress, this`errorEvent, this`completedCalls
      ensures Valid()
      ensures suspended == old(suspended) - 1
      ensures !addTodoInProgress
      ensures completedCalls == old(completedCalls) + 1
      ensures store == if insertFails then old(store) else Insert(old(store), todo)
      ensures errorEvent == if insertFails then Some(FailedToAddTodo) else old(errorEvent)
    {
      suspended := suspended - 1;
      if insertFails {
        addTodoInProgress := false;
        errorEvent := Some(FailedToAddTodo);
        completedCalls := completedCalls + 1;
      } else {
        InsertPreservesWellFormed(store, todo);
        store := Insert(store, todo);
        addTodoInProgress := false;
        completedCalls := completedCalls + 1;
      }
    }
  }

  /** What the screen observes after a submission has run to completion. */
  datatype Observed = Observed(
    store: seq<Todo>,
    errorEvent: Option<string>,
    isTodoError: bool,
    addTodoInProgress: bool,
    completedCalls: nat)

  /**
   * A fresh view-model over `initialStore` receives `text`, is submitted, and
   * every launched step runs with a database that does not fail. Empty text
   * is rejected with the validation flag and no callback; the reserved input
   * leaves the table alone, sets the one-shot message and calls back once;
   * any other text is inserted exactly once and calls back once. The
   * in-progress flag always ends down.
   */
  method SubmitOnFreshViewModel(initialStore: seq<Todo>, text: string) returns (o: Observed)
    requires WellFormed(initialStore)
    ensures !o.addTodoInProgress
    ensures o.isTodoError <==> |text| == 0
    ensures |text| == 0 ==> o.store == initialStore && o.errorEvent == None && o.completedCalls == 0
    ensures |text| > 0 && EqualsIgnoreCase(text, ErrorSentinel) ==>
              o.store == initialStore && o.errorEvent == Some(FailedToAddTodo) && o.completedCalls == 1
    ensures |text| > 0 && !EqualsIgnoreCase(text, ErrorSentinel) ==>
              o.store == Insert(initialStore, text) && o.errorEvent == None && o.completedCalls == 1
  {
    var vm := new TodoViewModel(initialStore);
    vm.OnTodoValueChange(text);
    assert vm.store == initialStore && vm.todo == text && vm.errorEvent == None;
    vm.AddTodo();
    assert vm.store == initialStore && vm.todo == text && vm.errorEvent == None;
    assert vm.completedCalls == 0 && vm.suspended == 0 && !vm.addTodoInProgress;
    if |text| > 0 {
      vm.RunLaunched();
      if !EqualsIgnoreCase(text, ErrorSentinel) {
        assert vm.store == initialStore && vm.errorEvent == None && vm.completedCalls == 0;
        vm.ResumeAfterDelay(false);
      }
    }
    o := Observed(vm.store, vm.errorEvent, vm.isTodoError, vm.addTodoInProgress, vm.completedCalls);
  }

  /**
   * Two queries typed in a burst on a fresh view-model: until the debounce
   * settles the list is the unfiltered table, and afterwards it is filtered
   * by the last query only.
   */
  method SearchBurstOnFreshViewModel(initialStore: seq<Todo>, first: string, last: string)
    returns (before: seq<Todo>, after: seq<Todo>)
    requires WellFormed(initialStore)
    ensures before == initialStore
    ensures IsSubsequence(after, initialStore)
    ensures forall t :: t in after <==> t in initialStore && Contains(t.description, last, true)
  {
    var vm := new TodoViewModel(initialStore);
    vm.SetSearchQuery(first);
    vm.SetSearchQuery(last);
    before := vm.TodoList();
    vm.SettleDebounce();
    after := vm.TodoList();
  }

  /** The filtering example: "Test" selects "Test1" and "Another Test" but not "Sample". */
  lemma FilteringExample()
    ensures VisibleList([Todo(0, "Test1"), Todo(0, "Another Test"), Todo(0, "Sample")], "Test", true)
            == [Todo(0, "Test1"), Todo(0, "Another Test")]
  {
    assert MatchesAt("Test1", 0, "Test", true);
    assert MatchesAt("Another Test", 8, "Test", true);
    var sample := "Sample";
    forall j | 0 <= j ensures !MatchesAt(sample, j, "Test", true) {
      if j <= 2 {
        assert !CharMatches(sample[j + 1], "Test"[1], true);
      }
    }
    assert !Contains(sample, "Test", true);
  }

  /** The lower-case query also finds "Test1" on this screen, unlike the older one. */
  lemma IgnoresCaseExample()
    ensures Contains("Test1", "test", true)
  {
    assert MatchesAt("Test1", 0, "test", true);
  }
}
