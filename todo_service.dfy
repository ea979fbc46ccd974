/**
 * The todo service: a façade over the store that is either uninitialized or
 * initialized with an open store. It validates text, maps between the
 * storage and the application shapes, and replaces the store's failures with
 * fixed messages.
 */
module Service {
  import opened Wrappers
  import opened Text
  import opened Seqs
  import opened Records
  import Store = SqliteDatabase
  import Factory = DatabaseFactory

  datatype ServiceError =
    | NotInitialized
    | EmptyText
    | LoadFailed
    | AddFailed
    | UpdateFailed
    | DeleteFailed
    | ClearFailed
    | InitFailed(cause: Factory.FactoryError)
    | CloseFailed(storeError: Store.StoreError)

  function Message(e: ServiceError): string {
    match e
    case NotInitialized => "TodoService not initialized. Call initialize() first."
    case EmptyText => "Todo text cannot be empty"
    case LoadFailed => "Failed to load todos from database"
    case AddFailed => "Failed to add todo to database"
    case UpdateFailed => "Failed to update todo in database"
    case DeleteFailed => "Failed to delete todo from database"
    case ClearFailed => "Failed to clear completed todos from database"
    case InitFailed(cause) => Factory.Message(cause)
    case CloseFailed(storeError) => Store.Message(storeError)
  }

  function MapDatabaseTodoToTodo(t: DatabaseTodo): Todo {
    Todo(t.id, t.text, t.completed, t.createdAt)
  }

  function MapTodoToDatabaseTodo(t: Todo): DatabaseTodo {
    DatabaseTodo(t.id, t.text, t.completed, t.createdAt)
  }

  /** The two shapes convert into each other without loss, either way round. */
  lemma MappingRoundTrip(t: Todo, d: DatabaseTodo)
    ensures MapDatabaseTodoToTodo(MapTodoToDatabaseTodo(t)) == t
    ensures MapTodoToDatabaseTodo(MapDatabaseTodoToTodo(d)) == d
  {
  }

  /** `dbTodos.map(mapDatabaseTodoToTodo)`. */
  function MapAll(rows: seq<DatabaseTodo>): (todos: seq<Todo>)
    ensures |todos| == |rows|
    ensures forall k :: 0 <= k < |rows| ==> MapTodoToDatabaseTodo(todos[k]) == rows[k]
  {
    seq(|rows|, k requires 0 <= k < |rows| => MapDatabaseTodoToTodo(rows[k]))
  }

  function UnmapAll(todos: seq<Todo>): seq<DatabaseTodo> {
    seq(|todos|, k requires 0 <= k < |todos| => MapTodoToDatabaseTodo(todos[k]))
  }

  lemma MapAllRoundTrip(rows: seq<DatabaseTodo>)
    ensures UnmapAll(MapAll(rows)) == rows
  {
  }

  /** `todos.find(todo => todo.id === id)`: the first todo with the id. */
  function Find(todos: seq<Todo>, id: string): (r: Option<Todo>)
    ensures r.Some? ==> r.value in todos && r.value.id == id
    ensures r.None? ==> forall k :: 0 <= k < |todos| ==> todos[k].id != id
    ensures r.Some? ==> exists k :: 0 <= k < |todos| && todos[k] == r.value
                                    && forall j :: 0 <= j < k ==> todos[j].id != id
  {
    if todos == [] then None
    else if todos[0].id == id then Some(todos[0])
    else
      var r := Find(todos[1..], id);
      assert forall k :: 1 <= k < |todos| ==> todos[k] == todos[1..][k - 1];
      r
  }

  /** Finding an id in the mapped listing is looking it up in the listing. */
  lemma {:induction false} FindMapped(rows: seq<DatabaseTodo>, id: string)
    ensures Find(MapAll(rows), id) == match Store.Lookup(rows, id)
                                      case None => None
                                      case Some(t) => Some(MapDatabaseTodoToTodo(t))
  {
    if rows != [] {
      FindMapped(rows[1..], id);
      assert MapAll(rows)[1..] == MapAll(rows[1..]);
    }
  }

  /** A listing's first todo with the id is the table's row with that id. */
  lemma FindInListing(rows: seq<DatabaseTodo>, listing: seq<DatabaseTodo>, id: string)
    requires Store.UniqueIds(rows) && multiset(listing) == multiset(rows)
    ensures Find(MapAll(listing), id) == match Store.Lookup(rows, id)
                                         case None => None
                                         case Some(t) => Some(MapDatabaseTodoToTodo(t))
  {
    FindMapped(listing, id);
    Store.LookupPermutation(rows, listing, id);
  }

  /** Toggling a row twice gives the table back. */
  lemma ToggleTwiceRestores(rows: seq<DatabaseTodo>, id: string)
    requires Store.UniqueIds(rows) && Store.HasId(rows, id)
    ensures var c := Store.Lookup(rows, id).value.completed;
            var once := Store.PatchWhere(rows, id, Patch(None, Some(!c)));
            Store.HasId(once, id) && Store.Lookup(once, id).value.completed == !c
            && Store.PatchWhere(once, id, Patch(None, Some(c))) == rows
  {
    var c := Store.Lookup(rows, id).value.completed;
    var once := Store.PatchWhere(rows, id, Patch(None, Some(!c)));
    Store.PatchWhereLookup(rows, id, Patch(None, Some(!c)));
    var k :| 0 <= k < |rows| && rows[k].id == id;
    Store.LookupFindsRow(rows, k);
    assert forall j :: 0 <= j < |rows| && rows[j].id == id ==> j == k;
  }

  /** Every stored todo has a text that is not blank. Every write of the
      service keeps this, since it trims the text and refuses a blank one. */
  predicate NonBlankTexts(rows: seq<DatabaseTodo>) {
    forall k :: 0 <= k < |rows| ==> !IsBlank(rows[k].text)
  }

  /** A partial update that sets no text, or a non-blank one, keeps every
      stored text non-blank. */
  lemma PatchKeepsNonBlank(rows: seq<DatabaseTodo>, id: string, updates: Patch)
    requires NonBlankTexts(rows)
    requires updates.text.Some? ==> !IsBlank(updates.text.value)
    ensures NonBlankTexts(Store.PatchWhere(rows, id, updates))
  {
  }

  /** Deleting a todo keeps every stored text non-blank. */
  lemma RemoveIdKeepsNonBlank(rows: seq<DatabaseTodo>, id: string)
    requires NonBlankTexts(rows)
    ensures NonBlankTexts(Store.RemoveId(rows, id))
  {
    forall t | t in rows ensures !IsBlank(t.text) {
      var k :| 0 <= k < |rows| && rows[k] == t;
    }
  }

  /** Clearing the completed todos keeps every stored text non-blank. */
  lemma RemoveCompletedKeepsNonBlank(rows: seq<DatabaseTodo>)
    requires NonBlankTexts(rows)
    ensures NonBlankTexts(Store.RemoveCompleted(rows))
  {
    forall t | t in rows ensures !IsBlank(t.text) {
      var k :| 0 <= k < |rows| && rows[k] == t;
    }
  }

  class TodoService {
    var database: Store.SqliteTodoDatabase?
    var initialized: bool

    /** Initialized exactly when it holds a store, and that store is open. */
    ghost predicate Valid()
      reads this, database
    {
      && (initialized <==> database != null)
      && (database != null ==> database.Valid() && database.db == Store.Open)
    }

    constructor ()
      ensures Valid() && !initialized && database == null
    {
      database := null;
      initialized := false;
    }

    /** The test `ensureInitialized` makes before every operation. */
    predicate Ready()
      reads this
    {
      initialized && database != null
    }

    /** Builds and opens the store from the default configuration; does
        nothing once initialized. The environment's mode and the outcome of
        opening the file (whose table holds `disk`) are inputs. */
    method Initialize(nodeEnv: Option<string>, disk: seq<DatabaseTodo>, outcome: Store.OpenOutcome)
      returns (r: Outcome<ServiceError>)
      requires Valid() && Store.UniqueIds(disk)
      modifies this
      ensures Valid()
      ensures old(initialized) ==> r == Pass && initialized && database == old(database)
      ensures !old(initialized) ==> (r == Pass <==> outcome == Store.Opened)
      ensures !old(initialized) && r == Pass ==>
                && initialized && fresh(database) && database.rows == disk
                && database.filepath == Store.DefaultFilepath
                && database.verbose == (nodeEnv == Some("development"))
      ensures !old(initialized) && r.Fail? ==>
                && !initialized && database == null
                && r.error == InitFailed(Factory.StoreFailed(
                                if outcome == Store.CannotOpen then Store.ConnectFailed else Store.CreateTableFailed))
    {
      if initialized {
        return Pass;
      }
      var config := Factory.GetDefaultConfig(nodeEnv);
      var created := Factory.Create(config, disk, outcome);
      if created.Failure? {
        return Fail(InitFailed(created.error));
      }
      database := created.value;
      initialized := true;
      r := Pass;
    }

    /** Every todo, newest first, in the application shape. */
    method GetAllTodos(readFails: bool) returns (r: Result<seq<Todo>, ServiceError>)
      requires Valid()
      ensures !Ready() ==> r == Failure(NotInitialized)
      ensures Ready() ==> (r.Success? <==> !readFails)
      ensures Ready() && readFails ==> r == Failure(LoadFailed)
      ensures r.Success? ==> database != null && |r.value| == |database.rows|
                             && Store.NewestFirst(UnmapAll(r.value))
                             && multiset(UnmapAll(r.value)) == multiset(database.rows)
    {
      if !initialized || database == null {
        return Failure(NotInitialized);
      }
      var listed := database.GetAllTodos(readFails);
      if listed.Failure? {
        return Failure(LoadFailed);
      }
      MapAllRoundTrip(listed.value);
      assert |multiset(listed.value)| == |multiset(database.rows)|;
      r := Success(MapAll(listed.value));
    }

    /** Stores the trimmed text as a new open todo stamped `createdAt`; the
        store takes its id from the clock reading `now`. Blank text is refused
        before the store is touched. */
    method AddTodo(text: string, createdAt: Timestamp, now: nat, writeFails: bool)
      returns (r: Result<Todo, ServiceError>)
      requires Valid()
      modifies database
      ensures Valid()
      ensures database != null && NonBlankTexts(old(database.rows)) ==> NonBlankTexts(database.rows)
      ensures !Ready() ==> r == Failure(NotInitialized)
      ensures Ready() && IsBlank(text) ==> r == Failure(EmptyText)
      ensures Ready() && !IsBlank(text) ==>
                (r.Success? <==> !writeFails && !Store.HasId(old(database.rows), Decimal(now)))
      ensures Ready() && !IsBlank(text) && r.Failure? ==> r.error == AddFailed
      ensures r.Success? ==> r.value == Todo(Decimal(now), Trim(text), false, createdAt)
                             && database.rows == old(database.rows) + [MapTodoToDatabaseTodo(r.value)]
      ensures r.Failure? && database != null ==> database.rows == old(database.rows)
    {
      if !initialized || database == null {
        return Failure(NotInitialized);
      }
      if IsBlank(text) {
        return Failure(EmptyText);
      }
      var added := database.AddTodo(NewTodo(Trim(text), false, createdAt), now, writeFails);
      if added.Failure? {
        return Failure(AddFailed);
      }
      r := Success(MapDatabaseTodoToTodo(added.value));
    }

    /** Reads the listing, finds the todo and writes back its negated flag;
        `Success(None)` when no todo has the id. */
    method ToggleTodo(id: string, readFails: bool, updateFails: bool, fetchFails: bool)
      returns (r: Result<Option<Todo>, ServiceError>)
      requires Valid()
      modifies database
      ensures Valid()
      ensures database != null && NonBlankTexts(old(database.rows)) ==> NonBlankTexts(database.rows)
      ensures !Ready() ==> r == Failure(NotInitialized)
      ensures Ready() && readFails ==> r == Failure(UpdateFailed) && database.rows == old(database.rows)
      ensures Ready() && !readFails && !Store.HasId(old(database.rows), id) ==>
                r == Success(None) && database.rows == old(database.rows)
      ensures Ready() && !readFails && Store.HasId(old(database.rows), id) ==>
                var cur := Store.Lookup(old(database.rows), id).value;
                && database.rows == (if updateFails then old(database.rows)
                                     else Store.PatchWhere(old(database.rows), id, Patch(None, Some(!cur.completed))))
                && r == (if updateFails || fetchFails then Failure(UpdateFailed)
                         else Success(Some(Todo(id, cur.text, !cur.completed, cur.createdAt))))
    {
      if !initialized || database == null {
        return Failure(NotInitialized);
      }
      var listed := GetAllTodos(readFails);
      if listed.Failure? {
        return Failure(UpdateFailed);
      }
      ghost var listing := UnmapAll(listed.value);
      assert listed.value == MapAll(listing);
      FindInListing(database.rows, listing, id);
      var current := Find(listed.value, id);
      if current.None? {
        return Success(None);
      }
      ghost var cur := Store.Lookup(database.rows, id).value;
      assert current.value == MapDatabaseTodoToTodo(cur);
      var flip := Patch(None, Some(!current.value.completed));
      assert flip == Patch(None, Some(!cur.completed));
      if NonBlankTexts(database.rows) { PatchKeepsNonBlank(database.rows, id, flip); }
      var updated := database.UpdateTodo(id, flip, updateFails, fetchFails);
      if updated.Failure? {
        return Failure(UpdateFailed);
      }
      assert updated.value == Some(Store.Patched(cur, flip));
      r := Success(Some(MapDatabaseTodoToTodo(updated.value.value)));
    }

    /** Sets the trimmed text of the todo with the id, sending only the text
        field; blank text is refused before the store is touched. */
    method UpdateTodoText(id: string, text: string, updateFails: bool, fetchFails: bool)
      returns (r: Result<Option<Todo>, ServiceError>)
      requires Valid()
      modifies database
      ensures Valid()
      ensures database != null && NonBlankTexts(old(database.rows)) ==> NonBlankTexts(database.rows)
      ensures !Ready() ==> r == Failure(NotInitialized)
      ensures Ready() && IsBlank(text) ==> r == Failure(EmptyText) && database.rows == old(database.rows)
      ensures Ready() && !IsBlank(text) ==>
                && database.rows == (if updateFails then old(database.rows)
                                     else Store.PatchWhere(old(database.rows), id, Patch(Some(Trim(text)), None)))
                && (r == Success(None) <==> !updateFails && !Store.HasId(old(database.rows), id))
                && (r.Failure? <==> updateFails || (fetchFails && Store.HasId(old(database.rows), id)))
                && (r.Failure? ==> r.error == UpdateFailed)
      ensures r.Success? && r.value.Some? ==>
                var cur := Store.Lookup(old(database.rows), id).value;
                r.value.value == Todo(id, Trim(text), cur.completed, cur.createdAt)
    {
      if !initialized || database == null {
        return Failure(NotInitialized);
      }
      if IsBlank(text) {
        return Failure(EmptyText);
      }
      TrimmedNotBlank(text);
      if NonBlankTexts(database.rows) { PatchKeepsNonBlank(database.rows, id, Patch(Some(Trim(text)), None)); }
      var updated := database.UpdateTodo(id, Patch(Some(Trim(text)), None), updateFails, fetchFails);
      if updated.Failure? {
        return Failure(UpdateFailed);
      }
      r := Success(if updated.value.Some? then Some(MapDatabaseTodoToTodo(updated.value.value)) else None);
    }

    /** Deletes the todo with the id; answers whether one existed. */
    method DeleteTodo(id: string, driverFails: bool) returns (r: Result<bool, ServiceError>)
      requires Valid()
      modifies database
      ensures Valid()
      ensures database != null && NonBlankTexts(old(database.rows)) ==> NonBlankTexts(database.rows)
      ensures !Ready() ==> r == Failure(NotInitialized)
      ensures Ready() ==> (r.Success? <==> !driverFails)
      ensures Ready() && driverFails ==> r == Failure(DeleteFailed) && database.rows == old(database.rows)
      ensures r.Success? ==> r.value == Store.HasId(old(database.rows), id)
                             && database.rows == Store.RemoveId(old(database.rows), id)
    {
      if !initialized || database == null {
        return Failure(NotInitialized);
      }
      if NonBlankTexts(database.rows) { RemoveIdKeepsNonBlank(database.rows, id); }
      var deleted := database.DeleteTodo(id, driverFails);
      if deleted.Failure? {
        return Failure(DeleteFailed);
      }
      r := Success(deleted.value);
    }

    /** Deletes every completed todo; answers how many there were. */
    method ClearCompleted(driverFails: bool) returns (r: Result<nat, ServiceError>)
      requires Valid()
      modifies database
      ensures Valid()
      ensures database != null && NonBlankTexts(old(database.rows)) ==> NonBlankTexts(database.rows)
      ensures !Ready() ==> r == Failure(NotInitialized)
      ensures Ready() ==> (r.Success? <==> !driverFails)
      ensures Ready() && driverFails ==> r == Failure(ClearFailed) && database.rows == old(database.rows)
      ensures r.Success? ==> r.value == |Filter(old(database.rows), Store.IsDone)|
                             && database.rows == Store.RemoveCompleted(old(database.rows))
    {
      if !initialized || database == null {
        return Failure(NotInitialized);
      }
      if NonBlankTexts(database.rows) { RemoveCompletedKeepsNonBlank(database.rows); }
      var cleared := database.DeleteCompletedTodos(driverFails);
      if cleared.Failure? {
        return Failure(ClearFailed);
      }
      r := Success(cleared.value);
    }

    /** Closes and drops the store so that a later `Initialize` reconnects; a
        failing close is passed on and keeps the service as it was. */
    method Close(closeFails: bool) returns (r: Outcome<ServiceError>)
      requires Valid()
      modifies this, database
      ensures Valid()
      ensures old(database) == null ==> r == Pass && database == null && !initialized
      ensures old(database) != null && !closeFails ==>
                && r == Pass && database == null && !initialized
                && old(database).db == Store.Closed && old(database).rows == old(database.rows)
      ensures old(database) != null && closeFails ==>
                && r == Fail(CloseFailed(Store.CloseFailed)) && database == old(database) && initialized
                && database.db == old(database.db) && database.rows == old(database.rows)
    {
      if database != null {
        var closed := database.Close(closeFails);
        if closed.Fail? {
          return Fail(CloseFailed(closed.error));
        }
        database := null;
        initialized := false;
      }
      r := Pass;
    }

    /** Never fails: true exactly when initialized and a read of the store succeeds. */
    method IsHealthy(readFails: bool) returns (healthy: bool)
      requires Valid()
      ensures healthy <==> Ready() && !readFails
    {
      if !initialized || database == null {
        return false;
      }
      var listed := database.GetAllTodos(readFails);
      healthy := listed.Success?;
    }
  }
}
