/**
 * The client's list logic: each operation computes the next list from the
 * current one (the hook hands it to React's setter), plus the filtered view
 * and the counters.
 */
module UseTodos {
  import opened Text
  import opened Seqs
  import opened Records

  predicate IsDone(t: Todo) {
    t.completed
  }

  predicate IsActive(t: Todo) {
    !t.completed
  }

  /** Prepends a new open todo with the trimmed text; blank text changes
      nothing. The id is `Date.now().toString()` for the clock reading `now`. */
  function AddTodo(todos: seq<Todo>, text: string, now: nat, createdAt: Timestamp): (r: seq<Todo>)
    ensures IsBlank(text) ==> r == todos
    ensures !IsBlank(text) ==> && |r| == |todos| + 1 && r[1..] == todos
                               && r[0].id == Decimal(now) && r[0].createdAt == createdAt
                               && r[0].text == Trim(text) && !IsBlank(r[0].text)
                               && !r[0].completed
  {
    if IsBlank(text) then todos
    else
      TrimmedNotBlank(text);
      [Todo(Decimal(now), Trim(text), false, createdAt)] + todos
  }

  function Toggled(t: Todo, id: string): Todo {
    if t.id == id then t.(completed := !t.completed) else t
  }

  /** Flips the flag of the todos with the id; length, order and every other
      field stay as they were. */
  function ToggleTodo(todos: seq<Todo>, id: string): (r: seq<Todo>)
    ensures |r| == |todos|
    ensures forall k :: 0 <= k < |todos| ==>
              && r[k].id == todos[k].id && r[k].text == todos[k].text && r[k].createdAt == todos[k].createdAt
              && (r[k].completed <==> (todos[k].completed <==> todos[k].id != id))
  {
    seq(|todos|, k requires 0 <= k < |todos| => Toggled(todos[k], id))
  }

  lemma ToggleTwiceRestores(todos: seq<Todo>, id: string)
    ensures ToggleTodo(ToggleTodo(todos, id), id) == todos
  {
    var twice := ToggleTodo(ToggleTodo(todos, id), id);
    assert forall k :: 0 <= k < |todos| ==> twice[k] == todos[k];
  }

  /** Drops the todos with the id. */
  function DeleteTodo(todos: seq<Todo>, id: string): seq<Todo> {
    Filter(todos, (t: Todo) => t.id != id)
  }

  /** After a delete no todo has the id, and every other todo is still there,
      as often as before and in the same order. */
  lemma DeleteTodoSpec(todos: seq<Todo>, id: string)
    ensures var r := DeleteTodo(todos, id);
            && (forall k :: 0 <= k < |r| ==> r[k].id != id)
            && IsSubsequence(r, todos)
            && (forall t: Todo :: t.id != id ==> multiset(r)[t] == multiset(todos)[t])
  {
    FilterIsSubsequence(todos, (t: Todo) => t.id != id);
    forall t: Todo | t.id != id ensures multiset(DeleteTodo(todos, id))[t] == multiset(todos)[t] {
      FilterMultiset(todos, (t: Todo) => t.id != id, t);
    }
  }

  /** Sets the trimmed text on the todos with the id; blank text changes
      nothing, and no other field or todo changes. */
  function UpdateTodo(todos: seq<Todo>, id: string, text: string): (r: seq<Todo>)
    ensures |r| == |todos|
    ensures forall k :: 0 <= k < |todos| ==>
              && r[k].id == todos[k].id && r[k].completed == todos[k].completed
              && r[k].createdAt == todos[k].createdAt
              && r[k].text == (if todos[k].id == id && !IsBlank(text) then Trim(text) else todos[k].text)
  {
    if IsBlank(text) then todos
    else seq(|todos|, k requires 0 <= k < |todos| =>
                        if todos[k].id == id then todos[k].(text := Trim(text)) else todos[k])
  }

  /** Keeps the todos that are not completed. */
  function ClearCompleted(todos: seq<Todo>): seq<Todo> {
    Filter(todos, IsActive)
  }

  /** Clearing keeps exactly the active todos, each as often as before and in
      order, and clearing again changes nothing. */
  lemma ClearCompletedSpec(todos: seq<Todo>)
    ensures var r := ClearCompleted(todos);
            && (forall t :: multiset(r)[t] == if t.completed then 0 else multiset(todos)[t])
            && IsSubsequence(r, todos)
            && ClearCompleted(r) == r
  {
    forall t ensures multiset(ClearCompleted(todos))[t] == if t.completed then 0 else multiset(todos)[t] {
      FilterMultiset(todos, IsActive, t);
    }
    FilterIsSubsequence(todos, IsActive);
    FilterIdempotent(todos, IsActive);
  }

  predicate Shown(filter: FilterType, t: Todo) {
    match filter
    case Active => !t.completed
    case Completed => t.completed
    case All => true
  }

  /** The todos the current filter shows. */
  function GetFilteredTodos(todos: seq<Todo>, filter: FilterType): seq<Todo> {
    Filter(todos, (t: Todo) => Shown(filter, t))
  }

  /** `all` shows the whole list; `active` exactly the open todos and
      `completed` exactly the completed ones, each as often as in the list and
      in its order. */
  lemma GetFilteredTodosSpec(todos: seq<Todo>, filter: FilterType)
    ensures var r := GetFilteredTodos(todos, filter);
            && IsSubsequence(r, todos)
            && (filter == All ==> r == todos)
            && (filter == Active ==> forall t :: multiset(r)[t] == if t.completed then 0 else multiset(todos)[t])
            && (filter == Completed ==> forall t :: multiset(r)[t] == if t.completed then multiset(todos)[t] else 0)
  {
    var p := (t: Todo) => Shown(filter, t);
    FilterIsSubsequence(todos, p);
    forall t ensures multiset(GetFilteredTodos(todos, filter))[t] == if p(t) then multiset(todos)[t] else 0 {
      FilterMultiset(todos, p, t);
    }
    if filter == All {
      FilterKeepsAll(todos, p);
    }
  }

  /** The counters: `total` is the list's length and every todo is counted
      as either active or completed. */
  function GetStats(todos: seq<Todo>): (s: TodoStats)
    ensures s.total == |todos| && s.active + s.completed == s.total
    ensures s.active == |GetFilteredTodos(todos, Active)| && s.completed == |GetFilteredTodos(todos, Completed)|
  {
    FilterPartition(todos, IsActive, IsDone);
    FilterSameTest(todos, IsActive, (t: Todo) => Shown(Active, t));
    FilterSameTest(todos, IsDone, (t: Todo) => Shown(Completed, t));
    TodoStats(|todos|, |Filter(todos, IsActive)|, |Filter(todos, IsDone)|)
  }

  /** Filtering by two tests that agree everywhere gives the same list. */
  lemma {:induction false} FilterSameTest(todos: seq<Todo>, p: Todo -> bool, q: Todo -> bool)
    requires forall t :: p(t) == q(t)
    ensures Filter(todos, p) == Filter(todos, q)
  {
    if todos != [] {
      FilterSameTest(todos[1..], p, q);
    }
  }

  /** Adding a todo adds one active todo; clearing leaves no completed todo
      and the active count as it was; toggling keeps the total. */
  lemma StatsAcrossOperations(todos: seq<Todo>, text: string, now: nat, createdAt: Timestamp, id: string)
    ensures !IsBlank(text) ==>
              && GetStats(AddTodo(todos, text, now, createdAt)).total == GetStats(todos).total + 1
              && GetStats(AddTodo(todos, text, now, createdAt)).active == GetStats(todos).active + 1
    ensures GetStats(ClearCompleted(todos)).completed == 0
    ensures GetStats(ClearCompleted(todos)).active == GetStats(todos).active
    ensures GetStats(ToggleTodo(todos, id)).total == GetStats(todos).total
  {
    if !IsBlank(text) {
      var added := AddTodo(todos, text, now, createdAt);
      assert added == [added[0]] + todos;
    }
    FilterThenComplement(todos, IsActive, IsDone);
    FilterIdempotent(todos, IsActive);
  }
}
